/** The popularity filter of `MovieRecommender.load_data`: keep a rating
    only if its title and its user are both rated often enough, with both
    counts taken on the unfiltered merged table. */
module Popularity {
  import opened Seqs

  /** One row of the merged table after projecting to `userId`, `title`, `rating`. */
  datatype Row = Row(userId: int, title: string, rating: real)

  /** `df['title'].value_counts()` at `t`: how many rows rate `t`. */
  function TitleCount(df: seq<Row>, t: string): (n: nat)
    ensures n <= |df|
    ensures n == 0 <==> forall i :: 0 <= i < |df| ==> df[i].title != t
  {
    if |df| == 0 then 0 else (if df[0].title == t then 1 else 0) + TitleCount(df[1..], t)
  }

  /** `df['userId'].value_counts()` at `u`: how many rows `u` wrote. */
  function UserCount(df: seq<Row>, u: int): (n: nat)
    ensures n <= |df|
    ensures n == 0 <==> forall i :: 0 <= i < |df| ==> df[i].userId != u
  {
    if |df| == 0 then 0 else (if df[0].userId == u then 1 else 0) + UserCount(df[1..], u)
  }

  /** `movie_count[movie_count >= min_movie_ratings].index`: the index of
      `value_counts` holds only titles that occur, so a title is popular iff
      it occurs and reaches the threshold. */
  function PopularTitles(df: seq<Row>, minMovieRatings: int): (titles: set<string>)
    ensures forall t :: t in titles <==> 0 < TitleCount(df, t) && minMovieRatings <= TitleCount(df, t)
  {
    assert forall t :: 0 < TitleCount(df, t) ==> exists row :: row in df && row.title == t by {
      forall t | 0 < TitleCount(df, t) ensures exists row :: row in df && row.title == t {
        var i :| 0 <= i < |df| && df[i].title == t;
        assert df[i] in df;
      }
    }
    assert forall row :: row in df ==> 0 < TitleCount(df, row.title) by {
      forall row | row in df ensures 0 < TitleCount(df, row.title) {
        var i :| 0 <= i < |df| && df[i] == row;
      }
    }
    set row | row in df && TitleCount(df, row.title) >= minMovieRatings :: row.title
  }

  /** `user_count[user_count >= min_user_ratings].index` */
  function ActiveUsers(df: seq<Row>, minUserRatings: int): (users: set<int>)
    ensures forall u :: u in users <==> 0 < UserCount(df, u) && minUserRatings <= UserCount(df, u)
  {
    assert forall u :: 0 < UserCount(df, u) ==> exists row :: row in df && row.userId == u by {
      forall u | 0 < UserCount(df, u) ensures exists row :: row in df && row.userId == u {
        var i :| 0 <= i < |df| && df[i].userId == u;
        assert df[i] in df;
      }
    }
    assert forall row :: row in df ==> 0 < UserCount(df, row.userId) by {
      forall row | row in df ensures 0 < UserCount(df, row.userId) {
        var i :| 0 <= i < |df| && df[i] == row;
      }
    }
    set row | row in df && UserCount(df, row.userId) >= minUserRatings :: row.userId
  }

  /** `rows[rows['title'].isin(titles)]`: every copy of a row whose title
      is listed, and nothing else. */
  function WhereTitleIn(rows: seq<Row>, titles: set<string>): (kept: seq<Row>)
    ensures forall row :: multiset(kept)[row] == if row.title in titles then multiset(rows)[row] else 0
  {
    FilterCounts(rows, (r: Row) => r.title in titles);
    Filter(rows, (r: Row) => r.title in titles)
  }

  /** `rows[rows['userId'].isin(users)]`: every copy of a row whose user
      is listed, and nothing else. */
  function WhereUserIn(rows: seq<Row>, users: set<int>): (kept: seq<Row>)
    ensures forall row :: multiset(kept)[row] == if row.userId in users then multiset(rows)[row] else 0
  {
    FilterCounts(rows, (r: Row) => r.userId in users);
    Filter(rows, (r: Row) => r.userId in users)
  }

  /** A row passes both masks of `load_data`: its title and its user are
      each counted often enough in `df`. */
  predicate Qualifies(df: seq<Row>, minMovieRatings: int, minUserRatings: int, row: Row) {
    TitleCount(df, row.title) >= minMovieRatings && UserCount(df, row.userId) >= minUserRatings
  }

  /** The table `load_data` keeps: the title mask, then the user mask, both
      thresholds checked against counts over `df`. */
  function PopularityFilter(df: seq<Row>, minMovieRatings: int, minUserRatings: int): (filtered: seq<Row>)
    ensures filtered == Filter(df, (row: Row) => Qualifies(df, minMovieRatings, minUserRatings, row))
    ensures forall row :: row in filtered <==>
      row in df && TitleCount(df, row.title) >= minMovieRatings && UserCount(df, row.userId) >= minUserRatings
    ensures forall row :: (multiset(filtered)[row] ==
      if Qualifies(df, minMovieRatings, minUserRatings, row) then multiset(df)[row] else 0)
  {
    var titles, users := PopularTitles(df, minMovieRatings), ActiveUsers(df, minUserRatings);
    FilterTwice(df, (r: Row) => r.title in titles, (r: Row) => r.userId in users,
                (row: Row) => Qualifies(df, minMovieRatings, minUserRatings, row));
    FilterCounts(df, (row: Row) => Qualifies(df, minMovieRatings, minUserRatings, row));
    WhereUserIn(WhereTitleIn(df, titles), users)
  }

  /** The filter only deletes rows: the survivors appear unchanged and in
      their original order. */
  lemma FilterKeepsOrder(df: seq<Row>, minMovieRatings: int, minUserRatings: int)
    ensures IsSubsequence(PopularityFilter(df, minMovieRatings, minUserRatings), df)
  {
    FilterIsSubsequence(df, (row: Row) => Qualifies(df, minMovieRatings, minUserRatings, row));
  }

  /** The alternative `load_data` does not use: recount users after the
      title mask. */
  function RecountedFilter(df: seq<Row>, minMovieRatings: int, minUserRatings: int): seq<Row> {
    var byTitle := WhereTitleIn(df, PopularTitles(df, minMovieRatings));
    WhereUserIn(byTitle, ActiveUsers(byTitle, minUserRatings))
  }

  /** Masking never raises a user's count. */
  lemma {:induction false} UserCountOfFilter(s: seq<Row>, keep: Row -> bool, u: int)
    ensures UserCount(Filter(s, keep), u) <= UserCount(s, u)
  {
    if |s| > 0 {
      UserCountOfFilter(s[1..], keep, u);
      var rest := Filter(s[1..], keep);
      if keep(s[0]) {
        assert Filter(s, keep) == [s[0]] + rest;
        assert ([s[0]] + rest)[1..] == rest;
      } else {
        assert Filter(s, keep) == rest;
      }
    }
  }

  /** Recounting after the title mask can only drop more rows: its result
      is a subsequence of what `load_data` keeps. */
  lemma RecountedIsSubsequence(df: seq<Row>, minMovieRatings: int, minUserRatings: int)
    ensures IsSubsequence(RecountedFilter(df, minMovieRatings, minUserRatings),
                          PopularityFilter(df, minMovieRatings, minUserRatings))
  {
    var byTitle := WhereTitleIn(df, PopularTitles(df, minMovieRatings));
    var recounted, original := ActiveUsers(byTitle, minUserRatings), ActiveUsers(df, minUserRatings);
    forall x | x in byTitle && x.userId in recounted
      ensures x.userId in original
    {
      var row :| row in byTitle && UserCount(byTitle, row.userId) >= minUserRatings && row.userId == x.userId;
      UserCountOfFilter(df, (r: Row) => r.title in PopularTitles(df, minMovieRatings), x.userId);
    }
    FilterMonotone(byTitle, (r: Row) => r.userId in recounted, (r: Row) => r.userId in original);
  }

  /** A table on which recounting would give a different answer: user 1
      rates the popular "A" and the rare "B"; after dropping "B" user 1
      would fall below the threshold of 2, but `load_data` keeps the row. */
  lemma RecountDiffers()
    ensures PopularityFilter([Row(1, "A", 4.0), Row(1, "B", 3.0), Row(2, "A", 5.0)], 2, 2) == [Row(1, "A", 4.0)]
    ensures RecountedFilter([Row(1, "A", 4.0), Row(1, "B", 3.0), Row(2, "A", 5.0)], 2, 2) == []
  {
    var df := [Row(1, "A", 4.0), Row(1, "B", 3.0), Row(2, "A", 5.0)];
    assert df[1..] == [Row(1, "B", 3.0), Row(2, "A", 5.0)] && df[2..] == [Row(2, "A", 5.0)];
    assert TitleCount(df, "A") == 2 && TitleCount(df, "B") == 1;
    assert UserCount(df, 1) == 2 && UserCount(df, 2) == 1;
    var keep := (row: Row) => Qualifies(df, 2, 2, row);
    assert keep(df[0]) && !keep(df[1]) && !keep(df[2]);
    assert Filter(df[2..], keep) == [];
    assert Filter(df[1..], keep) == [];
    RecountedEmpty();
  }

  /** The second half of `RecountDiffers`: after the title mask each user
      has one rating left, so no user reaches 2. */
  lemma RecountedEmpty()
    ensures RecountedFilter([Row(1, "A", 4.0), Row(1, "B", 3.0), Row(2, "A", 5.0)], 2, 2) == []
  {
    ExamplePopularTitles();
    ExampleTitleMask();
    ExampleNoActiveUser();
    var kept := WhereUserIn([Row(1, "A", 4.0), Row(2, "A", 5.0)], {});
    assert multiset(kept) == multiset{};
  }

  lemma ExamplePopularTitles()
    ensures PopularTitles([Row(1, "A", 4.0), Row(1, "B", 3.0), Row(2, "A", 5.0)], 2) == {"A"}
  {
    var df := [Row(1, "A", 4.0), Row(1, "B", 3.0), Row(2, "A", 5.0)];
    assert df[1..] == [Row(1, "B", 3.0), Row(2, "A", 5.0)] && df[2..] == [Row(2, "A", 5.0)];
    assert TitleCount(df, "A") == 2;
    forall t | t != "A"
      ensures TitleCount(df, t) < 2
    {
      assert TitleCount(df[2..], t) == 0;
    }
  }

  lemma ExampleTitleMask()
    ensures WhereTitleIn([Row(1, "A", 4.0), Row(1, "B", 3.0), Row(2, "A", 5.0)], {"A"}) == [Row(1, "A", 4.0), Row(2, "A", 5.0)]
  {
    var df := [Row(1, "A", 4.0), Row(1, "B", 3.0), Row(2, "A", 5.0)];
    var titles := {"A"};
    var inA := (r: Row) => r.title in titles;
    assert df[1..] == [Row(1, "B", 3.0), Row(2, "A", 5.0)] && df[2..] == [Row(2, "A", 5.0)];
    assert Filter(df[2..], inA) == [Row(2, "A", 5.0)];
    assert Filter(df[1..], inA) == [Row(2, "A", 5.0)];
    assert Filter(df, inA) == [Row(1, "A", 4.0), Row(2, "A", 5.0)];
  }

  lemma ExampleNoActiveUser()
    ensures ActiveUsers([Row(1, "A", 4.0), Row(2, "A", 5.0)], 2) == {}
  {
    var byTitle := [Row(1, "A", 4.0), Row(2, "A", 5.0)];
    assert byTitle[1..] == [Row(2, "A", 5.0)];
    forall u
      ensures UserCount(byTitle, u) < 2
    {
      assert UserCount(byTitle[1..][1..], u) == 0;
    }
  }
}
