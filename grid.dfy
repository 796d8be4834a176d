/**
 * The tile grid of one page and the server that answers tile requests.
 *
 * The server is a finite table from request (ark, x, y) to response; a request
 * absent from the table is answered 404. A status of 200 means "tile exists";
 * every other status, whatever its code, is a grid boundary for the prober.
 * Because the table is finite, only finitely many requests succeed, which is
 * what makes the probing loops terminate.
 *
 * The functions below describe, from a given starting point, what the
 * row-major probing walk of `Gallica.fetch` does: which tiles it finds
 * (RowTiles, GridTiles), which requests it sends (RowProbes, GridProbes), and
 * how long each run of successes is (RunFrom, RowsFrom).
 */
module Grid {

  /** Side of every requested square, in pixels (the largest the server serves). */
  const SizeTile: nat := 2236

  /** Pixel offset of a tile's top-left corner: x selects the band, y the tile within it. */
  datatype Coord = Coord(x: nat, y: nat)

  /** A decoded tile or canvas, reduced to its size. */
  datatype Image = Image(width: nat, height: nat)

  /** What a tile request asks for: the page reference `ark` and the region's corner. */
  datatype Query = Query(ark: string, x: nat, y: nat)

  datatype Response = Response(status: int, body: Image)

  type Responses = map<Query, Response>

  /** Grid position (row i, column j) in pixels. */
  function At(i: nat, j: nat): Coord {
    Coord(i * SizeTile, j * SizeTile)
  }

  function Respond(m: Responses, q: Query): Response {
    if q in m then m[q] else Response(404, Image(0, 0))
  }

  /** The request for (x, y) of `ark` is answered with status 200. */
  predicate Ok(m: Responses, ark: string, x: nat, y: nat) {
    Respond(m, Query(ark, x, y)).status == 200
  }

  /** The image returned for the tile at c. */
  function Body(m: Responses, ark: string, c: Coord): Image {
    Respond(m, Query(ark, c.x, c.y)).body
  }

  /** A number above every coordinate the table mentions. */
  ghost function Bound(m: Responses): (b: nat)
    ensures forall q :: q in m ==> q.x < b && q.y < b
    decreases m.Keys
  {
    if m == map[] then 0
    else
      var q :| q in m;
      var rest := Bound(m - {q});
      var here := (if q.x < q.y then q.y else q.x) + 1;
      if rest < here then here else rest
  }

  // ---------------------------------------------------------------------------
  // The probing walk, from a given point on.

  /** Tiles found in row x when probing starts at column offset y. */
  function RowTiles(m: Responses, ark: string, x: nat, y: nat): seq<Coord>
    decreases Bound(m) - y
  {
    if Ok(m, ark, x, y) then [Coord(x, y)] + RowTiles(m, ark, x, y + SizeTile) else []
  }

  /** Tiles found from row x on. */
  function GridTiles(m: Responses, ark: string, x: nat): seq<Coord>
    decreases Bound(m) - x
  {
    if Ok(m, ark, x, 0) then RowTiles(m, ark, x, 0) + GridTiles(m, ark, x + SizeTile) else []
  }

  /** Requests sent in row x from column offset y on: up to and including the first failure. */
  function RowProbes(m: Responses, ark: string, x: nat, y: nat): seq<Query>
    decreases Bound(m) - y
  {
    [Query(ark, x, y)] + if Ok(m, ark, x, y) then RowProbes(m, ark, x, y + SizeTile) else []
  }

  /** Requests sent from row x on: whole rows, then the one failing row probe. */
  function GridProbes(m: Responses, ark: string, x: nat): seq<Query>
    decreases Bound(m) - x
  {
    if Ok(m, ark, x, 0) then RowProbes(m, ark, x, 0) + GridProbes(m, ark, x + SizeTile)
    else [Query(ark, x, 0)]
  }

  /** Length of the run of successes in row x starting at column offset y. */
  function RunFrom(m: Responses, ark: string, x: nat, y: nat): nat
    decreases Bound(m) - y
  {
    if Ok(m, ark, x, y) then 1 + RunFrom(m, ark, x, y + SizeTile) else 0
  }

  /** Number of consecutive rows from row x on whose first tile exists. */
  function RowsFrom(m: Responses, ark: string, x: nat): nat
    decreases Bound(m) - x
  {
    if Ok(m, ark, x, 0) then 1 + RowsFrom(m, ark, x + SizeTile) else 0
  }

  /** R: the first row whose (x, 0) request fails. */
  function RowCount(m: Responses, ark: string): nat {
    RowsFrom(m, ark, 0)
  }

  /** C_i: the first column of row i whose request fails. */
  function ColCount(m: Responses, ark: string, i: nat): nat {
    RunFrom(m, ark, i * SizeTile, 0)
  }

  /** Σ_{lo <= i < lo + n} (C_i + 1): the requests spent on n whole rows from row lo. */
  function RowRequests(m: Responses, ark: string, lo: nat, n: nat): nat
    decreases n
  {
    if n == 0 then 0 else ColCount(m, ark, lo) + 1 + RowRequests(m, ark, lo + 1, n - 1)
  }

  lemma {:induction false} RunFromFirstFailure(m: Responses, ark: string, x: nat, y: nat, k: nat)
    ensures k < RunFrom(m, ark, x, y) ==> Ok(m, ark, x, y + k * SizeTile)
    ensures !Ok(m, ark, x, y + RunFrom(m, ark, x, y) * SizeTile)
    decreases Bound(m) - y
  {
    if Ok(m, ark, x, y) {
      var n := RunFrom(m, ark, x, y + SizeTile);
      assert y + (n + 1) * SizeTile == (y + SizeTile) + n * SizeTile;
      if k > 0 {
        assert y + k * SizeTile == (y + SizeTile) + (k - 1) * SizeTile;
        RunFromFirstFailure(m, ark, x, y + SizeTile, k - 1);
      } else {
        RunFromFirstFailure(m, ark, x, y + SizeTile, 0);
      }
    }
  }

  lemma {:induction false} RowsFromFirstFailure(m: Responses, ark: string, x: nat, k: nat)
    ensures k < RowsFrom(m, ark, x) ==> Ok(m, ark, x + k * SizeTile, 0)
    ensures !Ok(m, ark, x + RowsFrom(m, ark, x) * SizeTile, 0)
    decreases Bound(m) - x
  {
    if Ok(m, ark, x, 0) {
      var n := RowsFrom(m, ark, x + SizeTile);
      assert x + (n + 1) * SizeTile == (x + SizeTile) + n * SizeTile;
      if k > 0 {
        assert x + k * SizeTile == (x + SizeTile) + (k - 1) * SizeTile;
        RowsFromFirstFailure(m, ark, x + SizeTile, k - 1);
      } else {
        RowsFromFirstFailure(m, ark, x + SizeTile, 0);
      }
    }
  }

  /**
   * R and C_i are first failures: row i exists exactly for i < R (its (x, 0)
   * request succeeds), and in row i the requests succeed exactly for the
   * columns j < C_i, the request for column C_i being the failing one.
   */
  lemma CountsAreFirstFailures(m: Responses, ark: string, i: nat, j: nat)
    ensures i < RowCount(m, ark) ==> Ok(m, ark, At(i, 0).x, 0)
    ensures !Ok(m, ark, At(RowCount(m, ark), 0).x, 0)
    ensures j < ColCount(m, ark, i) ==> Ok(m, ark, At(i, j).x, At(i, j).y)
    ensures !Ok(m, ark, At(i, ColCount(m, ark, i)).x, At(i, ColCount(m, ark, i)).y)
  {
    RowsFromFirstFailure(m, ark, 0, i);
    RunFromFirstFailure(m, ark, i * SizeTile, 0, j);
  }

  // ---------------------------------------------------------------------------
  // Shape of what the walk finds.

  lemma {:induction false} RowTilesShape(m: Responses, ark: string, x: nat, y: nat, c: Coord)
    requires c in RowTiles(m, ark, x, y)
    ensures c.x == x && c.y >= y && (c.y - y) % SizeTile == 0 && Ok(m, ark, c.x, c.y)
    decreases Bound(m) - y
  {
    if c != Coord(x, y) {
      RowTilesShape(m, ark, x, y + SizeTile, c);
    }
  }

  lemma {:induction false} GridTilesShape(m: Responses, ark: string, x: nat, c: Coord)
    requires c in GridTiles(m, ark, x)
    ensures c.x >= x && (c.x - x) % SizeTile == 0 && c.y % SizeTile == 0 && Ok(m, ark, c.x, c.y)
    decreases Bound(m) - x
  {
    if c in RowTiles(m, ark, x, 0) {
      RowTilesShape(m, ark, x, 0, c);
    } else {
      GridTilesShape(m, ark, x + SizeTile, c);
    }
  }

  lemma {:induction false} RowTilesMember(m: Responses, ark: string, x: nat, y: nat, j: nat)
    ensures Coord(x, y + j * SizeTile) in RowTiles(m, ark, x, y) <==> j < RunFrom(m, ark, x, y)
    decreases Bound(m) - y
  {
    if Ok(m, ark, x, y) && j > 0 {
      var rest := RowTiles(m, ark, x, y + SizeTile);
      assert y + j * SizeTile == (y + SizeTile) + (j - 1) * SizeTile;
      assert Coord(x, y + j * SizeTile) != Coord(x, y);
      RowTilesMember(m, ark, x, y + SizeTile, j - 1);
      assert Coord(x, y + j * SizeTile) in RowTiles(m, ark, x, y) <==> Coord(x, y + j * SizeTile) in rest;
    }
  }

  lemma {:induction false} GridTilesMember(m: Responses, ark: string, k: nat, i: nat, j: nat)
    ensures At(k + i, j) in GridTiles(m, ark, k * SizeTile)
        <==> i < RowsFrom(m, ark, k * SizeTile) && j < ColCount(m, ark, k + i)
    decreases Bound(m) - k * SizeTile
  {
    var x := k * SizeTile;
    var c := At(k + i, j);
    if Ok(m, ark, x, 0) {
      assert (k + 1) * SizeTile == x + SizeTile;
      if i == 0 {
        RowTilesMember(m, ark, x, 0, j);
        if c in GridTiles(m, ark, x + SizeTile) {
          GridTilesShape(m, ark, x + SizeTile, c);
        }
      } else {
        assert k + i == (k + 1) + (i - 1);
        GridTilesMember(m, ark, k + 1, i - 1, j);
        if c in RowTiles(m, ark, x, 0) {
          RowTilesShape(m, ark, x, 0, c);
        }
      }
    }
  }

  /**
   * The staircase: the tiles found on a page are exactly the grid positions
   * (i, j) with i < R and j < C_i, and nothing off the grid of multiples of
   * SizeTile is ever found; every tile found was answered 200.
   */
  lemma Staircase(m: Responses, ark: string, i: nat, j: nat, c: Coord)
    ensures At(i, j) in GridTiles(m, ark, 0) <==> i < RowCount(m, ark) && j < ColCount(m, ark, i)
    ensures c in GridTiles(m, ark, 0) ==>
              c == At(c.x / SizeTile, c.y / SizeTile) && Ok(m, ark, c.x, c.y)
  {
    GridTilesMember(m, ark, 0, i, j);
    if c in GridTiles(m, ark, 0) {
      GridTilesShape(m, ark, 0, c);
    }
  }

  // ---------------------------------------------------------------------------
  // Requests.

  lemma {:induction false} RowProbesLength(m: Responses, ark: string, x: nat, y: nat)
    ensures |RowProbes(m, ark, x, y)| == RunFrom(m, ark, x, y) + 1
    decreases Bound(m) - y
  {
    if Ok(m, ark, x, y) {
      RowProbesLength(m, ark, x, y + SizeTile);
    }
  }

  lemma {:induction false} GridProbesLength(m: Responses, ark: string, k: nat)
    ensures |GridProbes(m, ark, k * SizeTile)| == RowRequests(m, ark, k, RowsFrom(m, ark, k * SizeTile)) + 1
    decreases Bound(m) - k * SizeTile
  {
    var x := k * SizeTile;
    if Ok(m, ark, x, 0) {
      assert (k + 1) * SizeTile == x + SizeTile;
      var n := RowsFrom(m, ark, x + SizeTile);
      assert RowsFrom(m, ark, x) == n + 1;
      RowProbesLength(m, ark, x, 0);
      GridProbesLength(m, ark, k + 1);
      assert RowRequests(m, ark, k, n + 1) == ColCount(m, ark, k) + 1 + RowRequests(m, ark, k + 1, n);
    }
  }

  /** Requests per page = Σ_{i<R} (C_i + 1) + 1. */
  lemma ProbeCount(m: Responses, ark: string)
    ensures |GridProbes(m, ark, 0)| == RowRequests(m, ark, 0, RowCount(m, ark)) + 1
  {
    GridProbesLength(m, ark, 0);
  }

  lemma {:induction false} GridProbesRowStarts(m: Responses, ark: string, x: nat, i: nat)
    requires i <= RowsFrom(m, ark, x)
    ensures Query(ark, x + i * SizeTile, 0) in GridProbes(m, ark, x)
    decreases Bound(m) - x
  {
    if i > 0 {
      assert x + i * SizeTile == (x + SizeTile) + (i - 1) * SizeTile;
      GridProbesRowStarts(m, ark, x + SizeTile, i - 1);
    } else if Ok(m, ark, x, 0) {
      assert RowProbes(m, ark, x, 0)[0] == Query(ark, x, 0);
    }
  }

  lemma {:induction false} GridProbesLast(m: Responses, ark: string, x: nat)
    ensures GridProbes(m, ark, x)[|GridProbes(m, ark, x)| - 1] == Query(ark, x + RowsFrom(m, ark, x) * SizeTile, 0)
    decreases Bound(m) - x
  {
    if Ok(m, ark, x, 0) {
      var row, rest := RowProbes(m, ark, x, 0), GridProbes(m, ark, x + SizeTile);
      GridProbesLast(m, ark, x + SizeTile);
      assert rest[|rest| - 1] == (row + rest)[|row + rest| - 1];
      assert x + RowsFrom(m, ark, x) * SizeTile == (x + SizeTile) + RowsFrom(m, ark, x + SizeTile) * SizeTile;
    }
  }

  /**
   * A failure at y = 0 ends the page, a failure at y > 0 only its row: every
   * row i <= R is started with the request (i·S, 0), whatever happened in
   * the rows before, and the last request of the page is (R·S, 0).
   */
  lemma RowBoundaries(m: Responses, ark: string, i: nat)
    ensures i <= RowCount(m, ark) ==> Query(ark, At(i, 0).x, 0) in GridProbes(m, ark, 0)
    ensures GridProbes(m, ark, 0)[|GridProbes(m, ark, 0)| - 1] == Query(ark, At(RowCount(m, ark), 0).x, 0)
  {
    if i <= RowCount(m, ark) {
      GridProbesRowStarts(m, ark, 0, i);
    }
    GridProbesLast(m, ark, 0);
  }

  /** Row-major order on requests: by x, then by y. */
  predicate Before(a: Query, b: Query) {
    a.x < b.x || (a.x == b.x && a.y < b.y)
  }

  predicate RowMajor(p: seq<Query>) {
    forall a, b :: 0 <= a < b < |p| ==> Before(p[a], p[b])
  }

  lemma RowMajorAppend(p: seq<Query>, r: seq<Query>)
    requires RowMajor(p) && RowMajor(r)
    requires forall a, b :: 0 <= a < |p| && 0 <= b < |r| ==> Before(p[a], r[b])
    ensures RowMajor(p + r)
  {
  }

  lemma {:induction false} RowProbesOrder(m: Responses, ark: string, x: nat, y: nat)
    ensures RowMajor(RowProbes(m, ark, x, y))
    ensures forall q :: q in RowProbes(m, ark, x, y) ==> q.ark == ark && q.x == x && q.y >= y
    decreases Bound(m) - y
  {
    if Ok(m, ark, x, y) {
      var rest := RowProbes(m, ark, x, y + SizeTile);
      RowProbesOrder(m, ark, x, y + SizeTile);
      assert forall b :: 0 <= b < |rest| ==> rest[b] in rest;
      RowMajorAppend([Query(ark, x, y)], rest);
    }
  }

  lemma {:induction false} GridProbesOrder(m: Responses, ark: string, x: nat)
    ensures RowMajor(GridProbes(m, ark, x))
    ensures forall q :: q in GridProbes(m, ark, x) ==> q.ark == ark && q.x >= x
    decreases Bound(m) - x
  {
    if Ok(m, ark, x, 0) {
      var row := RowProbes(m, ark, x, 0);
      var rest := GridProbes(m, ark, x + SizeTile);
      RowProbesOrder(m, ark, x, 0);
      GridProbesOrder(m, ark, x + SizeTile);
      assert forall a :: 0 <= a < |row| ==> row[a] in row;
      assert forall b :: 0 <= b < |rest| ==> rest[b] in rest;
      RowMajorAppend(row, rest);
    }
  }

  /**
   * Probe order is row-major: (x, 0), (x, S), (x, 2S), ... then the next x;
   * in particular no tile is requested twice.
   */
  lemma ProbesRowMajor(m: Responses, ark: string)
    ensures RowMajor(GridProbes(m, ark, 0))
    ensures forall a, b :: 0 <= a < b < |GridProbes(m, ark, 0)| ==>
              GridProbes(m, ark, 0)[a] != GridProbes(m, ark, 0)[b]
  {
    GridProbesOrder(m, ark, 0);
  }

  lemma {:induction false} RowTilesAreSuccesses(m: Responses, ark: string, x: nat, y: nat, c: Coord)
    ensures c in RowTiles(m, ark, x, y)
        <==> Query(ark, c.x, c.y) in RowProbes(m, ark, x, y) && Ok(m, ark, c.x, c.y)
    decreases Bound(m) - y
  {
    if Ok(m, ark, x, y) {
      RowTilesAreSuccesses(m, ark, x, y + SizeTile, c);
    }
  }

  lemma {:induction false} GridTilesAreSuccesses(m: Responses, ark: string, x: nat, c: Coord)
    ensures c in GridTiles(m, ark, x)
        <==> Query(ark, c.x, c.y) in GridProbes(m, ark, x) && Ok(m, ark, c.x, c.y)
    decreases Bound(m) - x
  {
    if Ok(m, ark, x, 0) {
      RowTilesAreSuccesses(m, ark, x, 0, c);
      GridTilesAreSuccesses(m, ark, x + SizeTile, c);
    }
  }

  /**
   * Only 200 answers are staged, and every 200 answer the walk receives is
   * staged: a tile is kept exactly when it was requested and answered 200.
   */
  lemma StagedIffAnswered200(m: Responses, ark: string, c: Coord)
    ensures c in GridTiles(m, ark, 0)
        <==> Query(ark, c.x, c.y) in GridProbes(m, ark, 0) && Respond(m, Query(ark, c.x, c.y)).status == 200
  {
    GridTilesAreSuccesses(m, ark, 0, c);
  }
}
