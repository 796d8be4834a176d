/**
 * The `Gallica` class of the original single-page script (Gallica_fetcher.py):
 * it always fetches page 1 (`id + ".f1"`), stages tiles in the relative
 * directory "tmp/", has no empty-page check, saves the picture under the
 * output name as given and removes "tmp/".
 */
module Legacy {
  import opened Wrappers
  import opened Grid
  import opened Staging
  import opened Probe
  import opened Compose

  /**
   * What the single-page compose does with "tmp/" in state d: listing fails
   * when it is absent; a canvas without width or height (nothing with x = 0
   * or nothing with y = 0 staged) cannot be saved; otherwise the picture.
   */
  ghost function ComposeOutcome(d: Option<Dir>, out: string): Result<Saved, Stop> {
    if d.None? then Err(StagingMissing)
    else if CanvasWidth(d.value) == 0 || CanvasHeight(d.value) == 0 then Err(SaveRefused)
    else Ok(Picture(out, d.value))
  }

  class Gallica {
    /** `self.id`: the page reference, fixed to page 1. */
    const ark: string
    /** The output file name, used verbatim. */
    const out: string
    /** "tmp/", relative to the working directory; whatever it holds when the script starts stays in it. */
    const temp: TempDir
    var saved: seq<Saved>

    constructor (id: string, out: string, temp: TempDir)
      ensures ark == id + ".f1" && this.out == out && this.temp == temp && saved == []
    {
      ark := id + ".f1";
      this.out := out;
      this.temp := temp;
      saved := [];
    }

    /**
     * `compose`: list "tmp/" (failing when it is absent), add up the canvas,
     * paste the tiles, save under `out` and remove "tmp/". An empty
     * directory gives a 0 x 0 canvas, which `image.save` refuses, so "tmp/"
     * stays and nothing is written.
     */
    method Compose() returns (stop: Option<Stop>)
      modifies this, temp
      ensures var outcome := ComposeOutcome(old(temp.entries), out);
        && (outcome.Ok? ==> stop.None? && saved == old(saved) + [outcome.value] && temp.entries.None?)
        && (outcome.Err? ==> stop == Some(outcome.error) && saved == old(saved) && temp.entries == old(temp.entries))
    {
      if temp.entries.None? {
        return Some(StagingMissing);
      }
      var dir := temp.entries.value;
      var names, cs := temp.List();
      var picture := Render(out, dir, names, cs);
      if picture.width == 0 || picture.height == 0 {
        return Some(SaveRefused);
      }
      saved := saved + [picture];
      temp.Remove();
      stop := None;
    }

    /** `fetch`: the probe loops for page 1, then compose. */
    method Fetch(server: Server) returns (stop: Option<Stop>)
      modifies this, temp, server
      ensures server.log == old(server.log) + GridProbes(server.responses, ark, 0)
      ensures var staged := Staged(server.responses, ark, old(temp.entries));
        var outcome := ComposeOutcome(staged, out);
        && (outcome.Ok? ==> stop.None? && saved == old(saved) + [outcome.value] && temp.entries.None?)
        && (outcome.Err? ==> stop == Some(outcome.error) && saved == old(saved) && temp.entries == staged)
    {
      ProbeGrid(server, ark, temp);
      stop := Compose();
    }
  }

  /** Nothing staged: both totals stay 0 and no tile is pasted. */
  lemma EmptyCanvas()
    ensures CanvasWidth(map[]) == 0 && CanvasHeight(map[]) == 0 && Placements(map[]) == {}
  {
  }

  /**
   * A page with no tiles: when "tmp/" existed beforehand the empty canvas
   * cannot be saved; when it did not, listing it fails. Nothing is saved, and
   * the page-missing error of the later versions never arises.
   */
  lemma NoTilesOutcome(m: Responses, ark: string, out: string, d: Option<Dir>)
    requires GridTiles(m, ark, 0) == []
    ensures d == Some(map[]) ==> ComposeOutcome(Staged(m, ark, d), out) == Err(SaveRefused)
    ensures d.None? ==> ComposeOutcome(Staged(m, ark, d), out) == Err(StagingMissing)
    ensures ComposeOutcome(Staged(m, ark, d), out) != Err(PageMissing)
  {
    EmptyCanvas();
  }

  /**
   * With tiles found, and a first tile that has pixels, the picture is saved
   * under `out` and shows exactly the page's staircase.
   */
  lemma TilesOutcome(m: Responses, ark: string, out: string, d: Option<Dir>)
    requires d == None || d == Some(map[])
    requires GridTiles(m, ark, 0) != []
    requires Body(m, ark, At(0, 0)).width > 0 && Body(m, ark, At(0, 0)).height > 0
    ensures ComposeOutcome(Staged(m, ark, d), out) == Ok(Picture(out, Entries(Staged(m, ark, d))))
  {
    StagedStaircase(m, ark, d, 0, 0);
    var dir := Entries(Staged(m, ark, d));
    assert At(0, 0) in dir && dir[At(0, 0)] == Body(m, ark, At(0, 0));
    SumOverRemove(dir, dir.Keys, Across, At(0, 0));
    SumOverRemove(dir, dir.Keys, Down, At(0, 0));
  }

  /**
   * "tmp/" left behind by an earlier run that stopped before removing it
   * (a crash, or a refused save): a page without tiles still saves those old
   * tiles under `out`.
   */
  lemma LeftoverTilesSaved(m: Responses, ark: string, out: string, leftover: Dir)
    requires GridTiles(m, ark, 0) == []
    requires CanvasWidth(leftover) > 0 && CanvasHeight(leftover) > 0
    ensures ComposeOutcome(Staged(m, ark, Some(leftover)), out) == Ok(Picture(out, leftover))
  {
  }

  /**
   * Any leftover tile of "tmp/" that the walk does not overwrite ends up in
   * the saved picture, beside the page's own tiles.
   */
  lemma LeftoverTilePasted(m: Responses, ark: string, out: string, leftover: Dir, c: Coord)
    requires c in leftover && c !in GridTiles(m, ark, 0)
    requires ComposeOutcome(Staged(m, ark, Some(leftover)), out).Ok?
    ensures Placed(leftover, c) in ComposeOutcome(Staged(m, ark, Some(leftover)), out).value.tiles
  {
    StageUntouched(Some(leftover), m, ark, GridTiles(m, ark, 0), c);
    var dir := Entries(Staged(m, ark, Some(leftover)));
    assert Placed(dir, c) == Placed(leftover, c);
  }
}
