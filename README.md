# Movie recommender core, modelled in Dafny

The system recommends movies similar to a given title. `MovieRecommender`
(recommender.py) loads the merged `(userId, title, rating)` rows. It keeps
only titles and users with at least 50 ratings each. It codes the surviving
titles and users as sorted categories and builds an item-by-user sparse
matrix. A nearest-neighbour estimator is trained on that matrix. A
recommendation turns the neighbours of a title's row back into titles,
with the similarity `1 - distance`. A separate title search serves
autocompletion.

The project has six modules:

- `Seqs` (seqs.dfy): boolean-mask selection, order-preserving subsequences, Python's `s[:stop]`, and position lookup (`get_loc`).
- `Text` (text.dfy): ASCII `str.lower`, Python's substring `in`, and Python's string order.
- `Categorical` (categorical.dfy): pandas categories (sorted distinct values) and category codes.
- `Popularity` (popularity.dfy): the per-title and per-user counts and the popularity filter of `load_data`.
- `Matrix` (matrix.dfy): the `csr_matrix` built from ratings and (title code, user code) pairs, as a map from cells to ratings.
- `Recommender` (recommender.dfy): the class `MovieRecommender`, with its four fields, its invariant `Valid()`, and the methods `LoadData`, `TrainModel`, `Recommend` and `SearchTitles`. It also holds the specification functions these methods are proved against.

Pure code is modelled with functions and lemmas: the counts, the masks, the
categorical coding and the list comprehension of `search_titles`. The
object is modelled as a class whose methods assign its fields. The `for`
loop of `recommend` is a `while` loop whose invariant ties the list built
so far to `Convert`.

Some behaviour of the code is easy to misread; the model follows the code:

- `search_titles("")` returns the first `limit` titles, because the empty string is in every title. Only app.py:40-41 answers `[]` for an empty query.
- `load_data` raises no error of its own when the filtered table is empty.
- Two ratings for the same (title, user) cell are combined by `csr_matrix`, not overwritten. The combining rule is not visible in recommender.py, so the model takes it as a parameter.
- `recommend` skips the first neighbour and keeps the rest in the order `kneighbors` reports them. Nothing in the class checks that the skipped neighbour is the query title, sorts the list, or bounds its length by `k`.

## Model

| member | source | states |
|---|---|---|
| `Seqs.Filter` | recommender.py:35 | a mask selection keeps exactly the elements satisfying the mask, and never grows the table |
| `Seqs.FilterCounts` | recommender.py:35 | a mask selection keeps every copy of an accepted element and no copy of the others, so repeated rows survive as often as they occur |
| `Seqs.FilterIsSubsequence` | recommender.py:35 | a mask selection only deletes rows: survivors keep their values and their relative order |
| `Seqs.FilterMonotone` | recommender.py:38-41 | a stricter mask keeps a subsequence of what a looser mask keeps |
| `Seqs.FilterTwice` | recommender.py:35-41 | applying the title mask and then the user mask equals one selection with both conditions, when the masks agree on the table's rows |
| `Seqs.SliceTo` | recommender.py:98 | `results[:limit]` has length `min(limit, n)` for `limit >= 0`, drops the last `-limit` elements for `limit < 0`, and is a prefix of `results` |
| `Seqs.IndexOf` | recommender.py:73 | `get_loc` of a present value returns a position holding that value, with no earlier occurrence |
| `Seqs.IndexOfBijection` | recommender.py:73 | over a list without repeats, `get_loc(titles[i]) == i` and `titles[get_loc(t)] == t`: positions and titles are in one-to-one correspondence |
| `Text.Lower` | recommender.py:96-97 | `lower()` keeps the length and lower-cases each character (ASCII) |
| `Text.Contains` | recommender.py:97 | Python's `query in s`: the empty query is in every string, and no query longer than `s` is in it |
| `Text.ContainsAtOffset` | recommender.py:97 | `query in s` holds exactly when `query` occurs at some offset of `s` |
| `Text.LexLess` | recommender.py:47 | Python's string `<`: a proper prefix sorts before its extensions, and no string sorts before one of its own prefixes |
| `Categorical.StringLessIsStrictTotalOrder` | recommender.py:47 | the code-point order on titles, by which categories are sorted, is irreflexive, transitive and total |
| `Categorical.Categories` | recommender.py:47-48 | the categories of a column are strictly ascending and contain exactly the values of the column |
| `Categorical.SortedIsDistinct` | recommender.py:55 | strictly ascending categories list each value exactly once |
| `Categorical.SortedSetUnique` | recommender.py:47-48 | two strictly ascending lists with the same values are equal |
| `Categorical.CategoriesIgnoreRowOrder` | recommender.py:47-48 | the categories depend only on the set of values, not on row order or repetition, so rebuilding from the same data gives the same title index |
| `Categorical.Codes` | recommender.py:52 | `cat.codes` gives each row a code in `[0, N)` whose category is the row's value |
| `Popularity.TitleCount` | recommender.py:32 | `value_counts()` at a title is at most the number of rows, and is zero exactly when no row rates that title |
| `Popularity.UserCount` | recommender.py:38 | `value_counts()` at a user is at most the number of rows, and is zero exactly when the user wrote no row |
| `Popularity.PopularTitles` | recommender.py:32-34 | a title is in `popular_movies` iff it occurs in the table and its count reaches `min_movie_ratings` |
| `Popularity.ActiveUsers` | recommender.py:38-40 | a user is in `active_users` iff it occurs in the table and its count reaches `min_user_ratings` |
| `Popularity.WhereTitleIn` | recommender.py:35 | `isin` on titles keeps every copy of a row whose title is listed and no other row |
| `Popularity.WhereUserIn` | recommender.py:41 | `isin` on users keeps every copy of a row whose user is listed and no other row |
| `Popularity.PopularityFilter` | recommender.py:31-41 | the two masks equal one selection of the rows whose title and user both reach their thresholds, counted on the unfiltered table; a row survives iff it qualifies, and a qualifying row survives as many times as it occurs |
| `Popularity.FilterKeepsOrder` | recommender.py:35-41 | the filtered table is an order-preserving subsequence of the merged table, with rows unchanged |
| `Popularity.RecountedIsSubsequence` | recommender.py:38-41 | recounting users after the title mask (what the code does not do) would keep a subsequence of what the code keeps |
| `Popularity.RecountDiffers` | recommender.py:32-41 | on a concrete table the code keeps a row that recounting after the title mask would drop |
| `Matrix.TitleCategories` | recommender.py:47 | `movie_titles` is strictly sorted, has no repeats, and holds exactly the titles of the filtered rows |
| `Matrix.UserCategories` | recommender.py:48 | the user categories are strictly sorted, have no repeats, and hold exactly the users of the filtered rows |
| `Matrix.AssembleDomain` | recommender.py:50-53 | `Assemble` (the stored entries of `csr_matrix`) stores exactly the cells named by the coordinate lists |
| `Matrix.AssembleSingleEntry` | recommender.py:50-53 | in `Assemble`, a cell named by only one entry holds that entry's rating, whatever the rule for repeated cells |
| `Matrix.CodesAreCells` | recommender.py:52 | row `i`'s (title code, user code) pair is (`get_loc` of its title, `get_loc` of its user) |
| `Matrix.UniqueCellIsOnlyAt` | recommender.py:50-53 | a row whose (title, user) pair no other row shares is the only coordinate entry naming its cell |
| `Matrix.MatrixHoldsRatings` | recommender.py:50-53 | the contract of `BuildMatrix` (`movie_sparse_matrix`): every filtered row has a stored cell at (title code, user code), every stored cell comes from a row, and a cell hit by one row holds that row's rating |
| `Matrix.ShapeFitsEntries` | recommender.py:50-53 | the shape of `BuildMatrix`: all entries lie inside (titles × users) and every matrix row and column holds an entry, so the inferred shape is one row per title and one column per user |
| `Matrix.RowVector` | recommender.py:76 | `m[t, :]` holds exactly the stored entries of row `t`, each with its stored value |
| `Matrix.TitleRowHoldsRating` | recommender.py:73-76 | the matrix row chosen by `get_loc(title)` holds each unique rating of that title in its user's column |
| `Recommender.Convert` | recommender.py:80-87 | the loop succeeds iff every neighbour index is in range; it then yields one entry per neighbour, in order, with `movie_titles[idx]` and `1 - dist` |
| `Recommender.ConvertStopsAt` | recommender.py:82-85 | once a prefix converts, an out-of-range index right after it raises, naming that index |
| `Recommender.ConvertFailsAtFirstBad` | recommender.py:82-85 | a conversion that raises does so for the first out-of-range index |
| `Recommender.AfterFirst` | recommender.py:81 | `range(1, L)` visits the neighbours at positions `1..L-1`, in order |
| `Recommender.RecommendResult` | recommender.py:66-78 | no model raises "not trained", checked first; no titles loaded raises the `TypeError` of `x in None`; an unknown title gives `None`, and `None` comes back only for an unknown title; a known title with an unfitted model raises when `kneighbors` runs |
| `Recommender.RecommendResultFitted` | recommender.py:73-89 | for a fitted model and a known title: a list comes back iff every neighbour after the first has an index inside `movie_titles`; the list has `L-1` entries pairing each such neighbour, in order, with its title and `1 - dist`; otherwise the first out-of-range index raises |
| `Recommender.Matching` | recommender.py:96-97 | a title is matched iff it is in `movie_titles` and its lower-cased form contains the lower-cased query |
| `Recommender.EmptyQueryMatchesAll` | recommender.py:96-97 | an empty query matches every title, so `search_titles("")` returns the first `limit` titles |
| `Recommender.MatchingKeepsOrder` | recommender.py:97 | search matches keep `movie_titles` order |
| `Recommender.IndexedTitlesArePopular` | recommender.py:32-55 | every title in `movie_titles` has at least `min_movie_ratings` rows, and every coded user at least `min_user_ratings` rows, in the unfiltered table |
| `Recommender.MovieRecommender.constructor` | recommender.py:7-14 | a new recommender has no model, matrix, titles or filtered table |
| `Recommender.MovieRecommender.LoadData` | recommender.py:31-56 | after loading, `df_filtered` is the popularity filter of the input with thresholds 50 and 50, `movie_titles` its title categories, the matrix built from it, and the model unchanged |
| `Recommender.MovieRecommender.TrainModel` | recommender.py:60-64 | the model is always assigned, with `n_neighbors` 20; it is fitted on the matrix if one is loaded, otherwise `fit` raises and the model stays unfitted |
| `Recommender.MovieRecommender.Recommend` | recommender.py:66-89 | the loop (with `k` defaulting to 5) returns exactly `RecommendResult` for the current fields |
| `Recommender.MovieRecommender.SearchTitles` | recommender.py:91-98 | `[]` before titles are loaded; otherwise a prefix of the case-insensitive matches of length `min(limit, matches)` (`limit` defaulting to 10, Python slice rules for negative `limit`), each a title containing the query |
## Left out

- Reading `ratings.csv` and `movies.csv`, the join on `movieId` and the column projection (recommender.py:16-29) are file I/O and a library join. The model's input is the merged `(userId, title, rating)` sequence. `dataDir` is kept, but the file paths built from it are not.
- `print` logging throughout recommender.py is I/O.
- The estimator's `fit` and `kneighbors` and the cosine distance are foreign numerical code. `kneighbors` is the parameter `KNeighbors`: a function from the fitted matrix, the query row and `n_neighbors` to a list of (index, distance) pairs. Errors it raises itself, such as `n_neighbors` out of range, are not modelled.
- `Recommender.RecommendResult`: the list case is stated by the lemma `RecommendResultFitted`, not by the function's own ensures. The model does not state that the first neighbour is the query title, that results are sorted by similarity, or that there are exactly `k` of them. None of this is ensured by the class: it depends on the neighbour search.
- Floating point: ratings, distances and similarities are `real`, so `1 - dist` is exact.
- `Matrix.AssembleSingleEntry`: how scipy combines two ratings for the same (title, user) cell is not visible in the source. The rule is the parameter `combine` (the class constant `combineDuplicates`). Cell values are stated only for cells that a single row hits.
- Python's `str.lower` is modelled for ASCII letters only; Unicode case mapping is left out.
- scipy's behaviour on an empty coordinate list is not modelled. An empty filtered table gives a 0 × 0 matrix in the model.
- Neighbour indices are natural numbers, so Python's negative indexing of `movie_titles` is not modelled.
- app.py (Flask routes, JSON, status codes) and static/script.js (browser UI) are not part of this model.
