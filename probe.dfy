/**
 * The row-major probing walk of `Gallica.fetch`, shared by all three versions
 * of the script: x goes 0, S, 2S, ...; for each x, y goes 0, S, 2S, ... until
 * the first answer that is not 200; the outer walk stops at the first x whose
 * (x, 0) request is not answered 200. Every 200 answer is staged as a file.
 */
module Probe {
  import W = Wrappers
  import opened Grid
  import opened Staging

  /** The remote server: a fixed table of answers and the log of requests received. */
  class Server {
    const responses: Responses
    ghost var log: seq<Query>

    constructor (responses: Responses)
      ensures this.responses == responses && log == []
    {
      this.responses := responses;
      log := [];
    }

    /** One GET of the tile proxy; the answer depends on the request only. */
    method Get(q: Query) returns (r: Response)
      modifies this
      ensures r == Respond(responses, q)
      ensures log == old(log) + [q]
    {
      r := Respond(responses, q);
      log := log + [q];
    }
  }

  /** Moving the next pending request into the log keeps log + pending unchanged. */
  lemma ShiftOne<T>(a: seq<T>, b: seq<T>)
    requires |b| > 0
    ensures (a + [b[0]]) + b[1..] == a + b
  {
    assert a + b == a + ([b[0]] + b[1..]);
  }

  /** One request of `fetch` and, when it is answered 200, `create_image` for it. */
  method ProbeCell(server: Server, ark: string, x: nat, y: nat, temp: TempDir) returns (status: int)
    modifies server, temp
    ensures status == 200 <==> Ok(server.responses, ark, x, y)
    ensures server.log == old(server.log) + [Query(ark, x, y)]
    ensures temp.entries == if Ok(server.responses, ark, x, y)
      then WriteTile(old(temp.entries), Coord(x, y), Body(server.responses, ark, Coord(x, y)))
      else old(temp.entries)
  {
    var res := server.Get(Query(ark, x, y));
    status := res.status;
    if status == 200 {
      temp.Store(Coord(x, y), res.body);
    }
  }

  /**
   * The inner status loop of `fetch` for row x, entered once (x, 0) has been
   * answered 200 and stored: y goes S, 2S, ... and each 200 answer is stored,
   * up to the first other status.
   */
  method ProbeRow(server: Server, ark: string, x: nat, temp: TempDir)
    modifies server, temp
    ensures server.log == old(server.log) + RowProbes(server.responses, ark, x, SizeTile)
    ensures temp.entries == Stage(old(temp.entries), server.responses, ark, RowTiles(server.responses, ark, x, SizeTile))
  {
    ghost var m := server.responses;
    ghost var log0, dir0 := server.log, temp.entries;
    // the requests still to be sent and the tiles still to be stored
    ghost var probes, tiles := RowProbes(m, ark, x, SizeTile), RowTiles(m, ark, x, SizeTile);
    var y := 0;
    var statusY := 200;
    while statusY == 200
      invariant statusY == 200 ==> y < Bound(m) + SizeTile
      invariant statusY == 200 ==> probes == RowProbes(m, ark, x, y + SizeTile)
      invariant statusY == 200 ==> tiles == RowTiles(m, ark, x, y + SizeTile)
      invariant statusY != 200 ==> probes == [] && tiles == []
      invariant log0 + RowProbes(m, ark, x, SizeTile) == server.log + probes
      invariant Stage(dir0, m, ark, RowTiles(m, ark, x, SizeTile)) == Stage(temp.entries, m, ark, tiles)
      decreases Bound(m) + SizeTile - y
    {
      y := y + SizeTile;
      ghost var before := server.log;
      statusY := ProbeCell(server, ark, x, y, temp);
      assert probes[0] == Query(ark, x, y);
      ShiftOne(before, probes);
      probes := probes[1..];
      if statusY == 200 {
        tiles := tiles[1..];
      }
    }
  }

  /**
   * One pass of the outer loop of `fetch` for row x: the (x, 0) request and,
   * when it is answered 200, that tile stored and the rest of the row probed.
   */
  method ProbeColumn(server: Server, ark: string, x: nat, temp: TempDir) returns (status: int)
    modifies server, temp
    ensures status == 200 <==> Ok(server.responses, ark, x, 0)
    ensures Ok(server.responses, ark, x, 0) ==>
      && server.log == old(server.log) + RowProbes(server.responses, ark, x, 0)
      && temp.entries == Stage(old(temp.entries), server.responses, ark, RowTiles(server.responses, ark, x, 0))
    ensures !Ok(server.responses, ark, x, 0) ==>
      && server.log == old(server.log) + [Query(ark, x, 0)]
      && temp.entries == old(temp.entries)
  {
    ghost var m := server.responses;
    ghost var log0, d0 := server.log, temp.entries;
    status := ProbeCell(server, ark, x, 0, temp);
    if status == 200 {
      ProbeRow(server, ark, x, temp);
      assert RowProbes(m, ark, x, 0) == [Query(ark, x, 0)] + RowProbes(m, ark, x, SizeTile);
      assert server.log == log0 + RowProbes(m, ark, x, 0) by {
        assert server.log == (log0 + [Query(ark, x, 0)]) + RowProbes(m, ark, x, SizeTile);
      }
      StageAppend(d0, m, ark, [Coord(x, 0)], RowTiles(m, ark, x, SizeTile));
    }
  }

  /** Two steps of bookkeeping combined: (a + b) + c == a + (b + c). */
  lemma Regroup<T>(a: seq<T>, b: seq<T>, c: seq<T>)
    ensures (a + b) + c == a + (b + c)
  {
  }

  /**
   * The two nested status loops of `fetch`, for the page reference `ark`.
   * The requests sent are exactly GridProbes (so their number is
   * Σ_{i<R} (C_i + 1) + 1), and the tiles staged are exactly GridTiles (the
   * staircase), written in probe order.
   */
  method ProbeGrid(server: Server, ark: string, temp: TempDir)
    modifies server, temp
    ensures server.log == old(server.log) + GridProbes(server.responses, ark, 0)
    ensures temp.entries == Stage(old(temp.entries), server.responses, ark, GridTiles(server.responses, ark, 0))
  {
    ghost var m := server.responses;
    ghost var log0, dir0 := server.log, temp.entries;
    ghost var probes, tiles := GridProbes(m, ark, 0), GridTiles(m, ark, 0);
    var x := 0;
    var statusX := 200;
    while statusX == 200
      invariant statusX == 200 ==> x < Bound(m) + SizeTile
      invariant statusX == 200 ==> probes == GridProbes(m, ark, x) && tiles == GridTiles(m, ark, x)
      invariant statusX != 200 ==> probes == [] && tiles == []
      invariant log0 + GridProbes(m, ark, 0) == server.log + probes
      invariant Stage(dir0, m, ark, GridTiles(m, ark, 0)) == Stage(temp.entries, m, ark, tiles)
      decreases Bound(m) + SizeTile - x
    {
      ghost var log1, d1 := server.log, temp.entries;
      statusX := ProbeColumn(server, ark, x, temp);
      if statusX == 200 {
        ghost var row, later := RowTiles(m, ark, x, 0), GridTiles(m, ark, x + SizeTile);
        Regroup(log1, RowProbes(m, ark, x, 0), GridProbes(m, ark, x + SizeTile));
        StageAppend(d1, m, ark, row, later);
        probes, tiles := GridProbes(m, ark, x + SizeTile), later;
      } else {
        probes, tiles := [], [];
      }
      x := x + SizeTile;
    }
  }

  /** The staging directory after the probe loops of one page, from state d. */
  ghost function Staged(m: Responses, ark: string, d: W.Option<Dir>): W.Option<Dir> {
    Stage(d, m, ark, GridTiles(m, ark, 0))
  }

  /**
   * What a page leaves in a staging directory that was absent or empty: it
   * exists exactly when a tile was found, and it holds exactly the staircase
   * (i·S, j·S) for i < R and j < C_i, each file holding the image the server
   * returned for it.
   */
  lemma StagedStaircase(m: Responses, ark: string, d: W.Option<Dir>, i: nat, j: nat)
    requires d == W.None || d == W.Some(map[])
    ensures Staged(m, ark, d).Some? <==> d.Some? || GridTiles(m, ark, 0) != []
    ensures At(i, j) in Entries(Staged(m, ark, d)) <==> i < RowCount(m, ark) && j < ColCount(m, ark, i)
    ensures forall c :: c in Entries(Staged(m, ark, d)) ==>
      c == At(c.x / SizeTile, c.y / SizeTile) && Entries(Staged(m, ark, d))[c] == Body(m, ark, c)
  {
    var tiles := GridTiles(m, ark, 0);
    StageContents(d, m, ark, tiles);
    Staircase(m, ark, i, j, At(i, j));
    forall c | c in Entries(Staged(m, ark, d))
      ensures c == At(c.x / SizeTile, c.y / SizeTile)
    {
      Staircase(m, ark, i, j, c);
    }
  }

  /** Staging at least one tile into an absent directory or an empty one gives the same directory. */
  lemma StageFromNothing(m: Responses, ark: string, cs: seq<Coord>)
    requires cs != []
    ensures Stage(W.None, m, ark, cs) == Stage(W.Some(map[]), m, ark, cs)
  {
  }
}
