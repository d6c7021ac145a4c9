/** The `MovieRecommender` class: it loads the filtered rating matrix,
    trains a nearest-neighbour estimator on it, answers "movies like this
    one" queries and searches titles for autocompletion. The estimator's
    neighbour search is a parameter (`KNeighbors`); the model covers what
    the class does before and after calling it. */
module Recommender {
  import opened Seqs
  import opened Text
  import opened Popularity
  import opened Matrix

  /** `min_movie_ratings` in `load_data`. */
  const MinMovieRatings: int := 50
  /** `min_user_ratings` in `load_data`. */
  const MinUserRatings: int := 50
  /** `n_neighbors` given to `NearestNeighbors`; `recommend` passes its own count. */
  const DefaultNeighbours: nat := 20
  /** Default `k` of `recommend`. */
  const DefaultK: int := 5
  /** Default `limit` of `search_titles`. */
  const DefaultLimit: int := 10

  datatype Option<T> = None | Some(value: T)

  datatype Result<T, E> = Success(value: T) | Failure(error: E)

  /** One entry of a `kneighbors` answer: the index of a fitted row and its
      cosine distance to the query. */
  datatype Neighbour = Neighbour(index: nat, distance: real)

  /** `{"title": ..., "similarity": ...}` */
  datatype Recommendation = Recommendation(title: string, similarity: real)

  /** What `train_model` and `recommend` can raise. */
  datatype Error =
    | ModelNotTrained                  // `recommend` while `self.model is None`
    | TitlesNotLoaded                  // `movie_name not in None`
    | FitWithoutMatrix                 // `fit(None)` before `load_data`
    | ModelNotFitted                   // `kneighbors` on an estimator whose fit raised
    | NeighbourOutOfRange(index: nat)  // `self.movie_titles[idx]` past the end

  /** The `NearestNeighbors` estimator: its default neighbour count and the
      matrix it was fitted on, once `fit` has succeeded. */
  datatype KnnModel = KnnModel(nNeighbors: nat, fittedOn: Option<SparseMatrix>)

  /** `model.kneighbors(query_row, n_neighbors=n)` on a model fitted on a
      matrix: the neighbours it reports, in the order it reports them. */
  type KNeighbors = (SparseMatrix, map<nat, real>, int) -> seq<Neighbour>

  /** The loop of `recommend` over the neighbours after the first: each
      neighbour index becomes its title, each distance `d` becomes the
      similarity `1 - d`; the first index past the end of `titles` raises. */
  function Convert(neighbours: seq<Neighbour>, titles: seq<string>): (r: Result<seq<Recommendation>, Error>)
    ensures r.Success? <==> forall j :: 0 <= j < |neighbours| ==> neighbours[j].index < |titles|
    ensures r.Success? ==>
      |r.value| == |neighbours| &&
      (forall j :: 0 <= j < |neighbours| ==>
         r.value[j] == Recommendation(titles[neighbours[j].index], 1.0 - neighbours[j].distance))
  {
    if |neighbours| == 0 then Success([])
    else
      var n := |neighbours| - 1;
      match Convert(neighbours[..n], titles)
      case Failure(e) => Failure(e)
      case Success(done) =>
        if neighbours[n].index < |titles| then
          Success(done + [Recommendation(titles[neighbours[n].index], 1.0 - neighbours[n].distance)])
        else
          Failure(NeighbourOutOfRange(neighbours[n].index))
  }

  /** Once a prefix converts and the next index is past the end, the whole
      conversion raises for that index. */
  lemma {:induction false} ConvertStopsAt(neighbours: seq<Neighbour>, titles: seq<string>, i: nat)
    requires i < |neighbours| && Convert(neighbours[..i], titles).Success?
    requires |titles| <= neighbours[i].index
    ensures Convert(neighbours, titles) == Failure(NeighbourOutOfRange(neighbours[i].index))
  {
    var n := |neighbours| - 1;
    if i < n {
      assert neighbours[..n][..i] == neighbours[..i];
      ConvertStopsAt(neighbours[..n], titles, i);
    } else {
      assert neighbours[..n] == neighbours[..i];
    }
  }

  /** A conversion that raises does so for the first index past the end
      of `titles`. */
  lemma {:induction false} ConvertFailsAtFirstBad(neighbours: seq<Neighbour>, titles: seq<string>)
    requires Convert(neighbours, titles).Failure?
    ensures exists i :: (0 <= i < |neighbours| && |titles| <= neighbours[i].index &&
      (forall j :: 0 <= j < i ==> neighbours[j].index < |titles|) &&
      Convert(neighbours, titles) == Failure(NeighbourOutOfRange(neighbours[i].index)))
  {
    var n := |neighbours| - 1;
    var init := neighbours[..n];
    if Convert(init, titles).Failure? {
      ConvertFailsAtFirstBad(init, titles);
      var i :| 0 <= i < |init| && |titles| <= init[i].index &&
        (forall j :: 0 <= j < i ==> init[j].index < |titles|) &&
        Convert(init, titles) == Failure(NeighbourOutOfRange(init[i].index));
      assert forall j :: 0 <= j <= i ==> init[j] == neighbours[j];
    } else {
      assert forall j :: 0 <= j < n ==> init[j] == neighbours[j];
    }
  }

  /** `range(1, len(...))`: every neighbour but the first. */
  function AfterFirst(found: seq<Neighbour>): (rest: seq<Neighbour>)
    ensures |rest| == if |found| == 0 then 0 else |found| - 1
    ensures forall j :: 0 <= j < |rest| ==> rest[j] == found[j + 1]
  {
    if |found| == 0 then [] else found[1..]
  }

  /** What `recommend(movieName, k)` returns (`Success`) or raises
      (`Failure`) in a given state; `Success(None)` is "movie not found". */
  function RecommendResult(model: Option<KnnModel>, titles: Option<seq<string>>, matrix: Option<SparseMatrix>,
                           movieName: string, k: int, kneighbors: KNeighbors): (r: Result<Option<seq<Recommendation>>, Error>)
    requires titles.Some? ==> matrix.Some?
    ensures model.None? ==> r == Failure(ModelNotTrained)
    ensures model.Some? && titles.None? ==> r == Failure(TitlesNotLoaded)
    ensures model.Some? && titles.Some? && movieName !in titles.value ==> r == Success(None)
    ensures r == Success(None) ==> model.Some? && titles.Some? && movieName !in titles.value
    ensures model.Some? && titles.Some? && movieName in titles.value && model.value.fittedOn.None? ==>
      r == Failure(ModelNotFitted)
  {
    if model.None? then Failure(ModelNotTrained)
    else if titles.None? then Failure(TitlesNotLoaded)
    else if movieName !in titles.value then Success(None)
    else if model.value.fittedOn.None? then Failure(ModelNotFitted)
    else
      var movieIndex := IndexOf(titles.value, movieName);
      var found := kneighbors(model.value.fittedOn.value, RowVector(matrix.value, movieIndex), k + 1);
      match Convert(AfterFirst(found), titles.value)
      case Failure(e) => Failure(e)
      case Success(recommendations) => Success(Some(recommendations))
  }

  /** For a fitted model and a known title, with `found` the neighbours the
      estimator reports: `recommend` returns a list exactly when every
      neighbour after the first has an index inside `movie_titles`; the list
      then pairs each of them, in order, with its title and `1 - dist`;
      otherwise it raises for the first neighbour whose index is too large. */
  lemma RecommendResultFitted(model: KnnModel, titles: seq<string>, matrix: SparseMatrix,
                              movieName: string, k: int, kneighbors: KNeighbors, found: seq<Neighbour>)
    requires model.fittedOn.Some? && movieName in titles
    requires found == kneighbors(model.fittedOn.value, RowVector(matrix, IndexOf(titles, movieName)), k + 1)
    ensures var r := RecommendResult(Some(model), Some(titles), Some(matrix), movieName, k, kneighbors);
      (r.Success? <==> forall j :: 1 <= j < |found| ==> found[j].index < |titles|) &&
      (r.Success? ==> (r.value.Some? && |r.value.value| == (if |found| == 0 then 0 else |found| - 1) &&
         forall j :: 0 <= j < |r.value.value| ==>
           r.value.value[j] == Recommendation(titles[found[j + 1].index], 1.0 - found[j + 1].distance))) &&
      (r.Failure? ==> exists j :: (1 <= j < |found| && |titles| <= found[j].index &&
         (forall i :: 1 <= i < j ==> found[i].index < |titles|) &&
         r.error == NeighbourOutOfRange(found[j].index)))
  {
    var rest := AfterFirst(found);
    var r := RecommendResult(Some(model), Some(titles), Some(matrix), movieName, k, kneighbors);
    if Convert(rest, titles).Failure? {
      ConvertFailsAtFirstBad(rest, titles);
      var i :| 0 <= i < |rest| && |titles| <= rest[i].index &&
        (forall j :: 0 <= j < i ==> rest[j].index < |titles|) &&
        Convert(rest, titles) == Failure(NeighbourOutOfRange(rest[i].index));
      var bad := i + 1;
      assert r == Failure(NeighbourOutOfRange(found[bad].index));
      assert forall j :: 1 <= j < bad ==> found[j] == rest[j - 1];
      assert 1 <= bad < |found| && |titles| <= found[bad].index &&
        (forall j :: 1 <= j < bad ==> found[j].index < |titles|) &&
        r.error == NeighbourOutOfRange(found[bad].index);
      assert !(forall j :: 1 <= j < |found| ==> found[j].index < |titles|);
    } else {
      assert r == Success(Some(Convert(rest, titles).value));
      assert forall j :: 1 <= j < |found| ==> found[j] == rest[j - 1];
    }
  }

  /** `[title for title in titles if query in title.lower()]`, with the
      query already lower-cased by `search_titles`. */
  function Matching(titles: seq<string>, query: string): (matches: seq<string>)
    ensures forall t :: t in matches <==> t in titles && Contains(Lower(t), Lower(query))
  {
    Filter(titles, (t: string) => Contains(Lower(t), Lower(query)))
  }

  /** Every title contains the empty string, so an empty query matches
      every title. */
  lemma EmptyQueryMatchesAll(titles: seq<string>)
    ensures Matching(titles, "") == titles
  {
    FilterAll(titles, (t: string) => Contains(Lower(t), Lower("")));
  }

  /** Matches keep the order they have in `titles`. */
  lemma MatchingKeepsOrder(titles: seq<string>, query: string)
    ensures IsSubsequence(Matching(titles, query), titles)
  {
    FilterIsSubsequence(titles, (t: string) => Contains(Lower(t), Lower(query)));
  }

  /** Every title in the index was rated at least `minMovieRatings` times,
      and every user coded in the matrix rated at least `minUserRatings`
      times, both counted in the unfiltered table. */
  lemma IndexedTitlesArePopular(df: seq<Row>, minMovieRatings: int, minUserRatings: int)
    ensures var filtered := PopularityFilter(df, minMovieRatings, minUserRatings);
      (forall t :: t in TitleCategories(filtered) ==> TitleCount(df, t) >= minMovieRatings) &&
      (forall u :: u in UserCategories(filtered) ==> UserCount(df, u) >= minUserRatings)
  {
  }

  class MovieRecommender {
    /** The directory the CSV files are read from (reading is not modelled). */
    const dataDir: string
    /** How the matrix constructor merges two ratings for the same cell. */
    const combineDuplicates: (real, real) -> real

    var model: Option<KnnModel>
    var movieSparseMatrix: Option<SparseMatrix>
    var movieTitles: Option<seq<string>>
    var dfFiltered: Option<seq<Row>>

    /** The matrix and the title index are built together from the
        filtered table, or are all three absent. */
    ghost predicate Valid()
      reads this
    {
      (movieTitles.Some? <==> dfFiltered.Some?) &&
      (movieSparseMatrix.Some? <==> dfFiltered.Some?) &&
      (dfFiltered.Some? ==>
        movieTitles.value == TitleCategories(dfFiltered.value) &&
        movieSparseMatrix.value == BuildMatrix(dfFiltered.value, combineDuplicates))
    }

    /** `MovieRecommender(data_dir)`: nothing loaded, nothing trained. */
    constructor (dataDir: string, combineDuplicates: (real, real) -> real)
      ensures Valid()
      ensures this.dataDir == dataDir && this.combineDuplicates == combineDuplicates
      ensures model.None? && movieSparseMatrix.None? && movieTitles.None? && dfFiltered.None?
    {
      this.dataDir := dataDir;
      this.combineDuplicates := combineDuplicates;
      model := None;
      movieSparseMatrix := None;
      movieTitles := None;
      dfFiltered := None;
    }

    /** `load_data` from the merged `(userId, title, rating)` rows on:
        filter, code the categories, build the matrix. */
    method LoadData(df: seq<Row>)
      modifies this
      ensures Valid()
      ensures dfFiltered == Some(PopularityFilter(df, MinMovieRatings, MinUserRatings))
      ensures movieTitles == Some(TitleCategories(dfFiltered.value))
      ensures movieSparseMatrix == Some(BuildMatrix(dfFiltered.value, combineDuplicates))
      ensures model == old(model)
    {
      var popularMovies := PopularTitles(df, MinMovieRatings);
      var filtered := WhereTitleIn(df, popularMovies);
      var activeUsers := ActiveUsers(df, MinUserRatings);
      filtered := WhereUserIn(filtered, activeUsers);
      movieSparseMatrix := Some(BuildMatrix(filtered, combineDuplicates));
      movieTitles := Some(TitleCategories(filtered));
      dfFiltered := Some(filtered);
    }

    /** `train_model`: the estimator is assigned before `fit` runs, so a
        fit that raises (no matrix loaded yet) leaves an unfitted model. */
    method TrainModel() returns (raised: Option<Error>)
      requires Valid()
      modifies this`model
      ensures Valid()
      ensures model == Some(KnnModel(DefaultNeighbours, movieSparseMatrix))
      ensures raised == (if movieSparseMatrix.None? then Some(FitWithoutMatrix) else None)
    {
      model := Some(KnnModel(DefaultNeighbours, None));
      if movieSparseMatrix.None? {
        return Some(FitWithoutMatrix);
      }
      model := Some(KnnModel(DefaultNeighbours, movieSparseMatrix));
      raised := None;
    }

    /** `recommend(movie_name, k)`. */
    method Recommend(movieName: string, kneighbors: KNeighbors, k: int := DefaultK)
      returns (r: Result<Option<seq<Recommendation>>, Error>)
      requires movieTitles.Some? ==> movieSparseMatrix.Some?  // implied by Valid()
      ensures r == RecommendResult(model, movieTitles, movieSparseMatrix, movieName, k, kneighbors)
    {
      if model.None? {
        return Failure(ModelNotTrained);
      }
      if movieTitles.None? {
        return Failure(TitlesNotLoaded);
      }
      var titles := movieTitles.value;
      if movieName !in titles {
        return Success(None);
      }
      var movieIndex := IndexOf(titles, movieName);
      if model.value.fittedOn.None? {
        return Failure(ModelNotFitted);
      }
      var found := kneighbors(model.value.fittedOn.value, RowVector(movieSparseMatrix.value, movieIndex), k + 1);
      ghost var rest := AfterFirst(found);
      var recommendations: seq<Recommendation> := [];
      var i := 1;
      while i < |found|
        invariant 1 <= i <= |rest| + 1
        invariant Convert(rest[..i - 1], titles) == Success(recommendations)
      {
        var idx := found[i].index;
        var dist := found[i].distance;
        assert rest[..i] == rest[..i - 1] + [found[i]];
        if idx >= |titles| {
          ConvertStopsAt(rest, titles, i - 1);
          return Failure(NeighbourOutOfRange(idx));
        }
        recommendations := recommendations + [Recommendation(titles[idx], 1.0 - dist)];
        i := i + 1;
      }
      assert rest[..i - 1] == rest;
      return Success(Some(recommendations));
    }

    /** `search_titles(query, limit)`: the first `limit` titles (Python
        slice rules) whose lower-cased form contains the lower-cased query,
        in title-index order; nothing before the titles are loaded. */
    function SearchTitles(query: string, limit: int := DefaultLimit): (r: seq<string>)
      reads this
      ensures movieTitles.None? ==> r == []
      ensures movieTitles.Some? ==>
        var all := Matching(movieTitles.value, query);
        (0 <= limit ==> |r| == if limit < |all| then limit else |all|) &&
        (limit < 0 ==> |r| == if -limit < |all| then |all| + limit else 0) &&
        r == all[..|r|]
      ensures movieTitles.Some? ==> forall t :: t in r ==>
        t in movieTitles.value && Contains(Lower(t), Lower(query))
    {
      if movieTitles.None? then []
      else
        var all := Matching(movieTitles.value, query);
        var r := SliceTo(all, limit);
        assert forall t :: t in r ==> t in all;
        r
    }
  }
}
