/** The item-by-user rating matrix of `MovieRecommender.load_data`: the
    filtered table's titles and users are coded as categories, and
    `csr_matrix((rating, (title code, user code)))` stores each rating at
    its (title code, user code) cell. */
module Matrix {
  import opened Seqs
  import opened Categorical
  import opened Popularity

  /** A sparse matrix: its shape and its stored entries. */
  datatype SparseMatrix = SparseMatrix(nRows: nat, nCols: nat, cells: map<(nat, nat), real>)

  function TitleColumn(rows: seq<Row>): seq<string> {
    seq(|rows|, i requires 0 <= i < |rows| => rows[i].title)
  }

  function UserColumn(rows: seq<Row>): seq<int> {
    seq(|rows|, i requires 0 <= i < |rows| => rows[i].userId)
  }

  function RatingColumn(rows: seq<Row>): seq<real> {
    seq(|rows|, i requires 0 <= i < |rows| => rows[i].rating)
  }

  /** `df_filtered['title'].cat.categories`, which becomes `movie_titles`. */
  function TitleCategories(rows: seq<Row>): (titles: seq<string>)
    ensures Distinct(titles) && StrictlySorted(titles, StringLess)
    ensures forall t :: t in titles <==> exists row :: row in rows && row.title == t
  {
    StringLessIsStrictTotalOrder();
    var titles := Categories(TitleColumn(rows), StringLess);
    SortedIsDistinct(titles, StringLess);
    assert forall t :: t in TitleColumn(rows) <==> exists row :: row in rows && row.title == t by {
      forall t | t in TitleColumn(rows) ensures exists row :: row in rows && row.title == t {
        var i :| 0 <= i < |rows| && TitleColumn(rows)[i] == t;
        assert rows[i] in rows;
      }
      forall row | row in rows ensures row.title in TitleColumn(rows) {
        var i :| 0 <= i < |rows| && rows[i] == row;
        assert TitleColumn(rows)[i] == row.title;
      }
    }
    titles
  }

  /** `df_filtered['userId'].cat.categories`. */
  function UserCategories(rows: seq<Row>): (users: seq<int>)
    ensures Distinct(users) && StrictlySorted(users, IntLess)
    ensures forall u :: u in users <==> exists row :: row in rows && row.userId == u
  {
    IntLessIsStrictTotalOrder();
    var users := Categories(UserColumn(rows), IntLess);
    SortedIsDistinct(users, IntLess);
    assert forall u :: u in UserColumn(rows) <==> exists row :: row in rows && row.userId == u by {
      forall u | u in UserColumn(rows) ensures exists row :: row in rows && row.userId == u {
        var i :| 0 <= i < |rows| && UserColumn(rows)[i] == u;
        assert rows[i] in rows;
      }
      forall row | row in rows ensures row.userId in UserColumn(rows) {
        var i :| 0 <= i < |rows| && rows[i] == row;
        assert UserColumn(rows)[i] == row.userId;
      }
    }
    users
  }

  /** The cell named by entry `i` of the coordinate lists. */
  function Coord(rowIdx: seq<nat>, colIdx: seq<nat>, i: nat): (nat, nat)
    requires i < |rowIdx| && i < |colIdx|
  {
    (rowIdx[i], colIdx[i])
  }

  /** No other entry of the coordinate lists names the cell of entry `i`. */
  predicate OnlyAt(rowIdx: seq<nat>, colIdx: seq<nat>, i: nat)
    requires |rowIdx| == |colIdx| && i < |rowIdx|
  {
    forall j :: 0 <= j < |rowIdx| && j != i ==> Coord(rowIdx, colIdx, j) != Coord(rowIdx, colIdx, i)
  }

  /** The stored entries of `csr_matrix((data, (rowIdx, colIdx)))`. How
      scipy merges two entries for the same cell is not fixed here: it is
      the parameter `combine`. */
  function Assemble(data: seq<real>, rowIdx: seq<nat>, colIdx: seq<nat>, combine: (real, real) -> real): map<(nat, nat), real>
    requires |rowIdx| == |data| && |colIdx| == |data|
  {
    if |data| == 0 then map[]
    else
      var n := |data| - 1;
      var before := Assemble(data[..n], rowIdx[..n], colIdx[..n], combine);
      var key := Coord(rowIdx, colIdx, n);
      before[key := if key in before then combine(before[key], data[n]) else data[n]]
  }

  /** The stored cells are exactly the cells the coordinate lists name. */
  lemma {:induction false} AssembleDomain(data: seq<real>, rowIdx: seq<nat>, colIdx: seq<nat>, combine: (real, real) -> real)
    requires |rowIdx| == |data| && |colIdx| == |data|
    ensures var cells := Assemble(data, rowIdx, colIdx, combine);
      (forall i :: 0 <= i < |data| ==> Coord(rowIdx, colIdx, i) in cells) &&
      (forall key :: key in cells ==> exists i :: 0 <= i < |data| && Coord(rowIdx, colIdx, i) == key)
  {
    if |data| > 0 {
      var n := |data| - 1;
      var r, c := rowIdx[..n], colIdx[..n];
      AssembleDomain(data[..n], r, c, combine);
      var before := Assemble(data[..n], r, c, combine);
      var cells := Assemble(data, rowIdx, colIdx, combine);
      assert cells.Keys == before.Keys + {Coord(rowIdx, colIdx, n)};
      assert forall i :: 0 <= i < n ==> Coord(r, c, i) == Coord(rowIdx, colIdx, i);
      forall key | key in cells
        ensures exists i :: 0 <= i < |data| && Coord(rowIdx, colIdx, i) == key
      {
        if key != Coord(rowIdx, colIdx, n) {
          var i :| 0 <= i < n && Coord(r, c, i) == key;
          assert Coord(rowIdx, colIdx, i) == key;
        }
      }
    }
  }

  /** A cell named by a single entry holds that entry's value, whatever
      `combine` does with repeated cells. */
  lemma {:induction false} AssembleSingleEntry(data: seq<real>, rowIdx: seq<nat>, colIdx: seq<nat>, combine: (real, real) -> real, i: nat)
    requires |rowIdx| == |data| && |colIdx| == |data| && i < |data|
    requires OnlyAt(rowIdx, colIdx, i)
    ensures var cells := Assemble(data, rowIdx, colIdx, combine);
      Coord(rowIdx, colIdx, i) in cells && cells[Coord(rowIdx, colIdx, i)] == data[i]
  {
    AssembleDomain(data, rowIdx, colIdx, combine);
    var n := |data| - 1;
    var r, c := rowIdx[..n], colIdx[..n];
    var before := Assemble(data[..n], r, c, combine);
    AssembleDomain(data[..n], r, c, combine);
    if i < n {
      assert OnlyAt(r, c, i) by {
        forall j | 0 <= j < n && j != i
          ensures Coord(r, c, j) != Coord(r, c, i)
        {
          assert Coord(rowIdx, colIdx, j) != Coord(rowIdx, colIdx, i);
        }
      }
      AssembleSingleEntry(data[..n], r, c, combine, i);
      assert Coord(rowIdx, colIdx, n) != Coord(rowIdx, colIdx, i);
    } else {
      forall key | key in before
        ensures key != Coord(rowIdx, colIdx, n)
      {
        var j :| 0 <= j < n && Coord(r, c, j) == key;
        assert Coord(rowIdx, colIdx, j) != Coord(rowIdx, colIdx, n);
      }
    }
  }

  /** The cell a row's rating lands in: (its title's code, its user's code). */
  function CellOf(rows: seq<Row>, i: nat): (nat, nat)
    requires i < |rows|
  {
    (IndexOf(TitleCategories(rows), rows[i].title), IndexOf(UserCategories(rows), rows[i].userId))
  }

  /** No other row rates the same title as the same user. */
  predicate UniqueCell(rows: seq<Row>, i: nat)
    requires i < |rows|
  {
    forall j :: 0 <= j < |rows| && j != i ==> rows[j].title != rows[i].title || rows[j].userId != rows[i].userId
  }

  /** `movie_sparse_matrix`: one row per title category, one column per
      user category, each rating stored at its row's cell. */
  function BuildMatrix(rows: seq<Row>, combine: (real, real) -> real): SparseMatrix {
    var titles, users := TitleCategories(rows), UserCategories(rows);
    assert forall i :: 0 <= i < |rows| ==> rows[i] in rows;
    SparseMatrix(|titles|, |users|,
      Assemble(RatingColumn(rows), Codes(TitleColumn(rows), titles), Codes(UserColumn(rows), users), combine))
  }

  /** Entry `i` of the code columns is row `i`'s cell. */
  lemma CodesAreCells(rows: seq<Row>, i: nat)
    requires i < |rows|
    ensures forall j :: 0 <= j < |rows| ==> rows[j] in rows
    ensures Coord(Codes(TitleColumn(rows), TitleCategories(rows)), Codes(UserColumn(rows), UserCategories(rows)), i) == CellOf(rows, i)
  {
    var titles, users := TitleCategories(rows), UserCategories(rows);
    assert forall j :: 0 <= j < |rows| ==> rows[j] in rows;
    IndexOfBijection(titles);
    IndexOfBijection(users);
    var tc, uc := Codes(TitleColumn(rows), titles), Codes(UserColumn(rows), users);
    assert titles[tc[i]] == rows[i].title && users[uc[i]] == rows[i].userId;
  }

  /** The stored cells are exactly the cells of the filtered rows, and a
      cell that only one row names holds that row's rating. */
  lemma {:induction false} MatrixHoldsRatings(rows: seq<Row>, combine: (real, real) -> real)
    ensures var m := BuildMatrix(rows, combine);
      (forall i :: 0 <= i < |rows| ==> CellOf(rows, i) in m.cells) &&
      (forall key :: key in m.cells ==> exists i :: 0 <= i < |rows| && CellOf(rows, i) == key) &&
      (forall i :: 0 <= i < |rows| && UniqueCell(rows, i) ==> m.cells[CellOf(rows, i)] == rows[i].rating)
  {
    var titles, users := TitleCategories(rows), UserCategories(rows);
    assert forall j :: 0 <= j < |rows| ==> rows[j] in rows;
    var tc, uc := Codes(TitleColumn(rows), titles), Codes(UserColumn(rows), users);
    var data := RatingColumn(rows);
    var m := BuildMatrix(rows, combine);
    assert m.cells == Assemble(data, tc, uc, combine);
    AssembleDomain(data, tc, uc, combine);
    forall i | 0 <= i < |rows|
      ensures Coord(tc, uc, i) == CellOf(rows, i)
    {
      CodesAreCells(rows, i);
    }
    forall i | 0 <= i < |rows| && UniqueCell(rows, i)
      ensures m.cells[CellOf(rows, i)] == rows[i].rating
    {
      UniqueCellIsOnlyAt(rows, i);
      AssembleSingleEntry(data, tc, uc, combine, i);
    }
  }

  /** A row whose (title, user) pair no other row shares is the only entry
      of the code columns naming its cell. */
  lemma UniqueCellIsOnlyAt(rows: seq<Row>, i: nat)
    requires i < |rows| && UniqueCell(rows, i)
    ensures forall j :: 0 <= j < |rows| ==> rows[j] in rows
    ensures OnlyAt(Codes(TitleColumn(rows), TitleCategories(rows)), Codes(UserColumn(rows), UserCategories(rows)), i)
  {
    var titles, users := TitleCategories(rows), UserCategories(rows);
    assert forall j :: 0 <= j < |rows| ==> rows[j] in rows;
    var tc, uc := Codes(TitleColumn(rows), titles), Codes(UserColumn(rows), users);
    forall j | 0 <= j < |rows| && j != i
      ensures Coord(tc, uc, j) != Coord(tc, uc, i)
    {
      assert titles[tc[j]] == rows[j].title && users[uc[j]] == rows[j].userId;
    }
  }

  /** Row `t` of `m` has at least one stored entry. */
  ghost predicate RowOccupied(m: SparseMatrix, t: nat) {
    exists key :: key in m.cells && key.0 == t
  }

  /** Column `c` of `m` has at least one stored entry. */
  ghost predicate ColumnOccupied(m: SparseMatrix, c: nat) {
    exists key :: key in m.cells && key.1 == c
  }

  /** Every stored entry lies inside the shape, and every row and every
      column holds an entry, so the shape scipy infers from the largest
      codes is exactly (number of titles, number of users). */
  lemma ShapeFitsEntries(rows: seq<Row>, combine: (real, real) -> real)
    ensures var m := BuildMatrix(rows, combine);
      (forall key :: key in m.cells ==> key.0 < m.nRows && key.1 < m.nCols) &&
      (forall t :: 0 <= t < m.nRows ==> RowOccupied(m, t)) &&
      (forall c :: 0 <= c < m.nCols ==> ColumnOccupied(m, c))
  {
    var m := BuildMatrix(rows, combine);
    var titles, users := TitleCategories(rows), UserCategories(rows);
    MatrixHoldsRatings(rows, combine);
    IndexOfBijection(titles);
    IndexOfBijection(users);
    forall key | key in m.cells
      ensures key.0 < m.nRows && key.1 < m.nCols
    {
      var i :| 0 <= i < |rows| && CellOf(rows, i) == key;
      assert rows[i] in rows;
    }
    forall t | 0 <= t < m.nRows
      ensures RowOccupied(m, t)
    {
      assert titles[t] in titles;
      var row :| row in rows && row.title == titles[t];
      var i :| 0 <= i < |rows| && rows[i] == row;
      assert CellOf(rows, i) in m.cells && CellOf(rows, i).0 == t;
    }
    forall c | 0 <= c < m.nCols
      ensures ColumnOccupied(m, c)
    {
      assert users[c] in users;
      var row :| row in rows && row.userId == users[c];
      var i :| 0 <= i < |rows| && rows[i] == row;
      assert CellOf(rows, i) in m.cells && CellOf(rows, i).1 == c;
    }
  }

  /** `m[t, :]`: the stored entries of row `t`, by column. */
  function RowVector(m: SparseMatrix, t: nat): (v: map<nat, real>)
    ensures forall c :: c in v ==> (t, c) in m.cells && v[c] == m.cells[(t, c)]
    ensures forall c :: 0 <= c < m.nCols && (t, c) in m.cells ==> c in v
  {
    map c | 0 <= c < m.nCols && (t, c) in m.cells :: m.cells[(t, c)]
  }

  /** `get_loc` of a row's title selects the matrix row holding that row's
      rating, in the column of its user. */
  lemma TitleRowHoldsRating(rows: seq<Row>, combine: (real, real) -> real, i: nat)
    requires i < |rows| && UniqueCell(rows, i)
    ensures var m := BuildMatrix(rows, combine);
      var v := RowVector(m, IndexOf(TitleCategories(rows), rows[i].title));
      var u := IndexOf(UserCategories(rows), rows[i].userId);
      u in v && v[u] == rows[i].rating
  {
    MatrixHoldsRatings(rows, combine);
    ShapeFitsEntries(rows, combine);
  }
}
