# Recommendation scoring engine — a verified Dafny model

This project models the recommendation engine of the product-recommendation service in `api.py`. The engine works in five steps:

1. It keeps the user's favourite records, which are those whose `fav` field is 1.
2. It builds a profile from them. The profile has two parts:
   - the favourites' non-empty descriptions joined by single spaces into one text;
   - the favourites' non-empty category names, in order, duplicates kept.
3. It scores every catalog product as `0.6 * category_score + 0.4 * text_similarity`:
   - `category_score` is 1 if the product's category is in the profile's list, and 0 otherwise.
   - `text_similarity` is the size of the intersection of the two whitespace-token sets, divided by the size of the larger set.
4. It sorts the scored products by descending score with Python's stable sort, and keeps the first `top_n`.
5. The endpoint reports the `products_id` of each product it kept.

The model has five modules, one file each:

- `Records` (`records.dfy`):
  - product records. A missing text or `fav` field and a JSON `null` are both `None`, since the code treats them alike. The `products_id` field keeps the two apart: a missing key is an error at api.py:154, and a `null` id is reported as null;
  - scored products;
  - the `Result` type that replaces Python's exceptions.
- `Similarity` (`similarity.dfy`):
  - Python's `str.split()`, using the whitespace set of `str.isspace`;
  - token sets and `" ".join`;
  - `text_similarity`.
- `Profiles` (`profile.dfy`):
  - the `fav == 1` filter;
  - `build_user_profile`. Both are loops, written as methods and proved against recursive specification functions.
- `Ranking` (`ranking.dfy`):
  - the stable descending sort, specified as a function `Descending`;
  - an in-place insertion sort on an array, proved equal to `Descending`;
  - Python's `s[:n]`;
  - the ranking properties.
- `Recommender` (`recommender.dfy`):
  - the scorer;
  - the scoring loop of `recommend`;
  - `recommend` itself;
  - the `products_id` projection of `get_recommendations`.

The catalog and the favourites data that the service fetches over HTTP are parameters (`catalog`, `favData`). Scores are exact `real` numbers.

Where the system's design documentation and the code disagree, the model follows the code:

- **`top_n` below zero.** The documentation says any value `top_n <= 0` gives an empty result. The code slices `results[:top_n]`, and in Python a negative `top_n` drops the last `-top_n` entries. `Ranking.Slice` models that slice exactly.
- **Whitespace-only texts.** The documentation says `text_similarity` has no error conditions. The code divides by zero when both texts are non-empty but contain only whitespace. The model returns `Failure(DivisionByZero)`. `recommend` passes this failure on, and the endpoint turns it into an HTTP 400 like any other exception.
- **When the "no favourites" error happens.** The documentation says `recommend` rejects a user with zero favourites. The code rejects whenever the profile text is empty, and that also covers favourites whose descriptions are all empty.
- **Weights.** The documentation asks for configurable weights. The code has the constants 0.6 and 0.4, and so does the model (`CategoryWeight`, `DescriptionWeight`).

## Model

| member | source | states |
|---|---|---|
| Similarity.WordLength | api.py:71-72 | The first word ends at the first whitespace character: no whitespace comes before the returned length, and the character at that length is whitespace |
| Similarity.WordsAreWords | api.py:71-72 | Every piece `split()` yields is non-empty and contains no whitespace |
| Similarity.NoTokensIffBlank | api.py:71-72 | A text has no tokens exactly when it is entirely whitespace (or empty) |
| Similarity.SingleWord | api.py:71-72 | A non-empty text without whitespace splits into exactly itself |
| Similarity.WordsAroundSpace | api.py:71-72 | Splitting `a + " " + b` gives the words of `a` followed by the words of `b` |
| Similarity.TokensOfJoin | api.py:100 | A token of `" ".join(ws)` is exactly a token of one of the parts |
| Similarity.JoinIsBlank | api.py:100 | The joined text is all whitespace exactly when every part is |
| Similarity.JoinIsEmpty | api.py:100 | Joining non-empty parts gives the empty text exactly when there are no parts |
| Similarity.Similarity | api.py:68-74 | The result is 0 when either text is empty. It fails with DivisionByZero exactly when both texts are non-empty and contain only whitespace. Otherwise it lies in [0, 1] |
| Similarity.SimilaritySymmetric | api.py:71-74 | The result does not depend on the order of the two texts |
| Similarity.SimilarityOfSelf | api.py:71-74 | A text with at least one token has similarity 1 with itself |
| Similarity.SimilarityIsOneIffSameTokens | api.py:71-74 | The similarity is 1 exactly when both texts are non-empty and have the same non-empty token set |
| Similarity.SimilarityIsZeroIffDisjoint | api.py:69-74 | The similarity is 0 exactly when one text is empty, or the token sets are disjoint and not both empty |
| Similarity.ThreeWordTokens | api.py:71-72 | Three single words joined by spaces have exactly those three tokens |
| Similarity.SimilarityTwoOfThree | api.py:73-74 | Two three-token sets that share exactly two tokens have similarity 2/3 |
| Similarity.SimilarityOfTwoSharedWords | api.py:71-74 | Two texts of three distinct words that share their first two words have similarity 2/3 |
| Profiles.FavouritesAppend | api.py:50-52 | The filter distributes over concatenation, which means it keeps source order |
| Profiles.FavouritesCount | api.py:50-52 | Every record with fav equal to 1 is kept as many times as it occurs, and nothing else is kept |
| Profiles.FavouritesMembers | api.py:50-52 | A record is a favourite exactly when it is in the data and its fav field equals 1 |
| Profiles.FavouritesEmpty | api.py:50-52 | There are no favourites exactly when no record has fav equal to 1 |
| Profiles.GetFavourites | api.py:50-52 | The loop returns exactly the favourites of the data, in their original order |
| Profiles.DescriptionsAppend | api.py:89-94 | The collected descriptions distribute over concatenation, in source order |
| Profiles.CategoriesAppend | api.py:89-97 | The collected categories distribute over concatenation, in source order, duplicates kept |
| Profiles.DescriptionsMembers | api.py:90-94 | A text is collected exactly when it is a non-empty description of some favourite |
| Profiles.CategoriesMembers | api.py:91-97 | A name is collected exactly when it is a non-empty category of some favourite |
| Profiles.ProfileTextIsEmpty | api.py:93-100 | The profile text is empty exactly when every favourite's description is missing or empty |
| Profiles.ProfileTokenFromDescription | api.py:93-100 | Every token of a favourite's description is a token of the profile text |
| Profiles.DescriptionFromProfileToken | api.py:93-100 | Every token of the profile text comes from some favourite's description |
| Profiles.ProfileTokens | api.py:93-100 | The profile text's tokens are exactly the union of the favourites' description tokens |
| Profiles.ProfileTextIsBlank | api.py:93-100 | The profile text is all whitespace exactly when every favourite's description is |
| Profiles.BuildUserProfile | api.py:80-102 | There is no profile exactly when there are no favourites. Otherwise the text is the space-join of the non-empty descriptions and the categories are the non-empty category names, both in source order |
| Ranking.InsertPermutes | api.py:136 | Inserting one entry into a sequence adds exactly that entry to its multiset |
| Ranking.InsertKeepsSorted | api.py:136 | Inserting by score into a descending sequence keeps it descending |
| Ranking.InsertIsStable | api.py:136 | The inserted entry goes after every entry with the same score |
| Ranking.DescendingPermutes | api.py:136 | The sorted list is a permutation of the input |
| Ranking.DescendingIsSorted | api.py:136 | The sorted list is non-increasing in score |
| Ranking.DescendingIsStable | api.py:136 | Entries with equal scores stay in their input order |
| Ranking.DescendingIsUnique | api.py:136 | Any permutation that is descending and stable equals `Descending`, so every stable sort, Python's included, gives this list |
| Ranking.InsertAt | api.py:136 | Insertion by score places the entry after every entry scoring at least as much and before the first one scoring less |
| Ranking.InsertIntoPrefix | api.py:136 | One pass of the in-place sort inserts `a[i]` into the sorted prefix `a[..i]` and leaves the rest of the array alone |
| Ranking.SortDescending | api.py:136 | The array is sorted in place into `Descending` of its old contents |
| Ranking.Slice | api.py:137 | `s[:n]` is a prefix of `s`. Its length is min(n, \|s\|) for n >= 0, and max(0, \|s\| + n) for n < 0 |
| Ranking.RankProperties | api.py:136-137 | The ranked list is a prefix of a sorted permutation of the input and is sorted. Each score class keeps its input order. Its length follows the slice rule for both signs of top_n |
| Ranking.SortedSuffixNoBetter | api.py:136-137 | In a descending list, nothing after position n scores more than anything before it |
| Ranking.RankKeepsBest | api.py:136-137 | No entry the cut to top_n drops scores more than an entry it keeps |
| Recommender.CategoryScore | api.py:121 | The category signal is 0 or 1 |
| Recommender.CategoryScoreOfProfile | api.py:121 | A product gets category score 1 exactly when its category is non-empty and some favourite has the same category. A missing or empty category therefore always scores 0 |
| Recommender.Score | api.py:120-130 | The score fails exactly when the description similarity fails, with DivisionByZero. Otherwise it lies in [0, 1], is at least 0.6 for a category match, and is at most 0.4 without one |
| Recommender.CategoryMatchOutranks | api.py:130 | A product in a favourite category always scores strictly more than one outside them |
| Recommender.ScoreWithTwoSharedWords | api.py:124-130 | A category match whose three-word description shares two words with a three-word profile text scores 13/15 |
| Recommender.ScoreAll | api.py:118-133 | Scoring succeeds exactly when every product's score does. On failure, the error is that of the first failing product. On success, entry k is product k with its score |
| Recommender.ScoredEntries | api.py:118-133 | Every scored entry is a catalog product with its own score |
| Recommender.ScoreCatalog | api.py:118-133 | The scoring loop returns exactly `ScoreAll` of the catalog, including the first failure |
| Recommender.Recommendation | api.py:108-137 | recommend fails with NoFavourites exactly when the profile text is empty. Its only other failure is DivisionByZero |
| Recommender.RankScored | api.py:136-137 | The in-place sort followed by the slice gives exactly `Rank` of the scored list |
| Recommender.Recommend | api.py:108-137 | The method returns exactly the recommendation the specification function describes |
| Recommender.NoFavouritesIffNoDescription | api.py:111-114 | recommend fails with NoFavourites exactly when every favourite's description is missing or empty |
| Recommender.NoFavouriteRecords | api.py:82-83 | When no record has fav equal to 1, recommend fails with NoFavourites |
| Recommender.DivisionByZeroIffBlank | api.py:124-127 | recommend fails with DivisionByZero exactly when all of these hold: the favourites' descriptions are all whitespace but not all empty, and some catalog product has a non-empty, whitespace-only description |
| Recommender.RecommendationRanked | api.py:136-137 | A successful result has all of these properties: (1) it is a prefix of a sorted permutation of the scored catalog; (2) it is sorted, and equal scores keep catalog order; (3) for top_n >= 0 it has min(top_n, \|catalog\|) entries; (4) each entry is a catalog product with its score; (5) nothing it leaves out scores more than anything it returns |
| Recommender.ProductIds | api.py:154 | The projection succeeds exactly when every record has a products_id key, and gives those values in order, a JSON null included. Otherwise it fails with MissingProductId |
| Recommender.NullIdIsReported | api.py:154 | A record whose products_id is JSON null yields a null id in the output rather than a failure |
| Recommender.GetRecommendations | api.py:147-156 | The endpoint passes on recommend's failure, or returns the ids of the recommended products in order (null for a null id), failing only when a record lacks the key |

## Left out

- HTTP fetches of the catalog and the favourites data (api.py:21-34, 40-62): this is network I/O. Both lists are parameters. A response with a status other than 200, or a body that is not valid JSON, gives an empty list there (api.py:25-34, 45-62). Passing an empty list models that case, and `Recommender.EmptyCatalog` shows an empty catalog yields no recommendation.
- Uncaught errors of the fetch layer: `requests.post` (api.py:24, 44) is outside any `try`, so a connection error propagates. So does a JSON body that is not an object (`data.get` raises AttributeError) and a `"data": null` payload (iterating over it raises TypeError). All of these reach the endpoint's HTTP 400 before any scoring; the model has no error value for them.
- `print` diagnostics on failed fetches: these are output only.
- FastAPI app, CORS middleware and the pydantic `RecommendRequest` (api.py:1-15, 143-145): framework plumbing.
- The HTTP 400 response and its message text (api.py:155-156): the exceptions the scoring core raises are `Failure` values, NoFavourites, DivisionByZero and MissingProductId. The fetch-layer errors above are not. The message strings are not modelled.
- IEEE floating point: scores are exact rationals. Equal rational scores are also equal as floats, because they have the same category score and the same token-count ratio, and Python's int/int division and the weighted sum round deterministically. The rounding is monotone, so it never reverses two scores. Two different ratios could only become the same float for token counts far beyond any product text; the model does not capture that collision.
- JSON value types: a present field is assumed to have the type the code expects, an integer `fav` and string description and category. Python also treats `True` and `1.0` as equal to 1 in `fav == 1`. Records that are not JSON objects would raise AttributeError. None of these cases is modelled.
- The write `p["similarity"] = ...` into the fetched records (api.py:132): a scored product is a pair of the record and its score, because the records are fresh per request.
- Python's sort algorithm (timsort): the model sorts by insertion. `Ranking.DescendingIsUnique` shows that every stable descending sort gives the same list.
- The preference-based variant of the service: it is not part of this model.
