/**
 * The `Gallica` class of the two multi-page versions of the script
 * (gallica_fetcher/gallica_fetcher.py and gallica_fetcher.py, which differ
 * only in messages and parameter names): pages page_min..page_max are
 * fetched in order; each page is probed, composed, saved as
 * "{output}_{page}.jpg" and its staging directory `TEMP` removed.
 */
module Fetcher {
  import opened Wrappers
  import opened Text
  import opened Grid
  import opened Staging
  import opened Probe
  import opened Compose
  import opened Request

  /** `"{0}_{1}.jpg".format(output_filename, page)`. */
  function SaveName(output: string, page: nat): string {
    output + "_" + NatToString(page) + ".jpg"
  }

  /** What compose does with the staging directory d: a picture, or why it stops. */
  ghost function ComposeOutcome(d: Option<Dir>, name: string): Result<Saved, Stop> {
    if d.None? then Err(StagingMissing)
    else if |d.value| == 0 then Err(PageMissing)
    else Ok(Picture(name, d.value))
  }

  /** Where a run of fetch_all ends up. */
  datatype RunState = RunState(saved: seq<Saved>, stop: Option<Stop>, staging: Option<Dir>, requests: seq<Query>, page: nat)

  /**
   * `fetch_all` from `page` on, with the staging directory in state d: page
   * after page until page_max or the first page that stops the run.
   */
  ghost function Run(m: Responses, id: string, output: string, page: nat, pageMax: nat, d: Option<Dir>): RunState
    decreases pageMax + 1 - page, 1
  {
    if page > pageMax then RunState([], None, d, [], page)
    else RunPage(m, id, output, page, pageMax, d)
  }

  /**
   * One turn of the loop: the page is probed, then composed; a picture moves
   * on to the next page with the directory removed, anything else ends the
   * run on this page.
   */
  ghost function RunPage(m: Responses, id: string, output: string, page: nat, pageMax: nat, d: Option<Dir>): RunState
    requires page <= pageMax
    decreases pageMax + 1 - page, 0
  {
    var ark := Ark(id, page);
    var staged := Staged(m, ark, d);
    var probes := GridProbes(m, ark, 0);
    match ComposeOutcome(staged, SaveName(output, page))
    case Err(stop) => RunState([], Some(stop), staged, probes, page)
    case Ok(picture) =>
      var rest := Run(m, id, output, page + 1, pageMax, None);
      rest.(saved := [picture] + rest.saved, requests := probes + rest.requests)
  }

  class Gallica {
    const id: string
    var page: nat
    const pageMax: nat
    const outputFilename: string
    /**
     * The staging directory `TEMP`. The script makes one, empty, with
     * `tempfile.mkdtemp()` and shares it between all its fetchers; here each
     * fetcher starts with its own empty one, as `main`'s single fetcher does.
     */
    const temp: TempDir
    /** The pictures written so far. */
    var saved: seq<Saved>

    constructor (id: string, outputFilename: string, pageMin: nat, pageMax: nat)
      ensures this.id == id && this.outputFilename == outputFilename
      ensures page == pageMin && this.pageMax == pageMax
      ensures fresh(temp) && temp.entries == Some(map[]) && saved == []
    {
      this.id := id;
      this.outputFilename := outputFilename;
      page := pageMin;
      this.pageMax := pageMax;
      temp := new TempDir(Some(map[]));
      saved := [];
    }

    /**
     * `compose`: list the staging directory (failing when it is absent),
     * raise PageException when it is empty, otherwise add up the canvas,
     * paste the tiles, save "{output}_{page}.jpg" and remove the directory.
     */
    method Compose() returns (stop: Option<Stop>)
      modifies this, temp
      ensures page == old(page)
      ensures var outcome := ComposeOutcome(old(temp.entries), SaveName(outputFilename, page));
        && (outcome.Ok? ==> stop.None? && saved == old(saved) + [outcome.value] && temp.entries.None?)
        && (outcome.Err? ==> stop == Some(outcome.error) && saved == old(saved) && temp.entries == old(temp.entries))
    {
      if temp.entries.None? {
        return Some(StagingMissing);
      }
      var dir := temp.entries.value;
      var names, cs := temp.List();
      if names == [] {
        assert dir == map[] by {
          assert forall c :: c !in dir;
        }
        return Some(PageMissing);
      }
      assert dir != map[] by {
        assert cs[0] in dir;
      }
      var picture := Render(SaveName(outputFilename, page), dir, names, cs);
      saved := saved + [picture];
      temp.Remove();
      stop := None;
    }

    /** `fetch`: the probe loops for the current page, then compose. */
    method Fetch(server: Server) returns (stop: Option<Stop>)
      modifies this, temp, server
      ensures page == old(page)
      ensures server.log == old(server.log) + GridProbes(server.responses, Ark(id, page), 0)
      ensures var staged := Staged(server.responses, Ark(id, page), old(temp.entries));
        var outcome := ComposeOutcome(staged, SaveName(outputFilename, page));
        && (outcome.Ok? ==> stop.None? && saved == old(saved) + [outcome.value] && temp.entries.None?)
        && (outcome.Err? ==> stop == Some(outcome.error) && saved == old(saved) && temp.entries == staged)
    {
      ProbeGrid(server, Ark(id, page), temp);
      stop := Compose();
    }

    /**
     * `fetch_all`: fetch pages page..page_max in ascending order; the first
     * page that fails ends the run (sys.exit(2), or the uncaught error).
     */
    method FetchAll(server: Server) returns (stop: Option<Stop>)
      modifies this, temp, server
      ensures var r := Run(server.responses, id, outputFilename, old(page), pageMax, old(temp.entries));
        && saved == old(saved) + r.saved
        && stop == r.stop
        && temp.entries == r.staging
        && server.log == old(server.log) + r.requests
        && page == r.page
    {
      ghost var m := server.responses;
      ghost var r0 := Run(m, id, outputFilename, page, pageMax, temp.entries);
      ghost var saved0, log0 := saved, server.log;
      stop := None;
      while page <= pageMax
        invariant saved0 + r0.saved == saved + Run(m, id, outputFilename, page, pageMax, temp.entries).saved
        invariant log0 + r0.requests == server.log + Run(m, id, outputFilename, page, pageMax, temp.entries).requests
        invariant r0.stop == Run(m, id, outputFilename, page, pageMax, temp.entries).stop
        invariant r0.staging == Run(m, id, outputFilename, page, pageMax, temp.entries).staging
        invariant r0.page == Run(m, id, outputFilename, page, pageMax, temp.entries).page
        invariant stop.None?
        decreases pageMax + 1 - page
      {
        ghost var savedBefore, logBefore := saved, server.log;
        ghost var rest := Run(m, id, outputFilename, page + 1, pageMax, None);
        stop := Fetch(server);
        if stop.Some? {
          return;
        }
        Regroup(savedBefore, [saved[|savedBefore|]], rest.saved);
        assert saved == savedBefore + [saved[|savedBefore|]];
        Regroup(logBefore, GridProbes(m, Ark(id, page), 0), rest.requests);
        page := page + 1;
      }
    }
  }

  /** The first request of page p, the tile at (0, 0), is answered with status 200. */
  predicate HasTiles(m: Responses, id: string, p: nat) {
    Grid.Ok(m, Ark(id, p), 0, 0)
  }

  /** A page has tiles exactly when its first request succeeds. */
  lemma HasTilesIffFound(m: Responses, id: string, p: nat)
    ensures HasTiles(m, id, p) <==> GridTiles(m, Ark(id, p), 0) != []
  {
  }

  /**
   * One page, from a staging directory that is absent or empty: a page with
   * tiles gives the picture of its staircase (the same whichever state the
   * directory was in); a page without tiles leaves the directory as it was,
   * and compose stops on it, with PageException only when it still exists.
   */
  lemma PageOutcome(m: Responses, ark: string, name: string, d: Option<Dir>)
    requires d == None || d == Some(map[])
    ensures GridTiles(m, ark, 0) != [] ==>
      ComposeOutcome(Staged(m, ark, d), name) == Ok(Picture(name, Entries(Staged(m, ark, None))))
    ensures GridTiles(m, ark, 0) == [] ==> Staged(m, ark, d) == d
    ensures GridTiles(m, ark, 0) == [] ==>
      ComposeOutcome(Staged(m, ark, d), name) == Err(if d.None? then StagingMissing else PageMissing)
  {
    var tiles := GridTiles(m, ark, 0);
    if tiles != [] {
      StageContents(d, m, ark, tiles);
      assert tiles[0] in Entries(Staged(m, ark, d));
      StageFromNothing(m, ark, tiles);
    }
  }

  /** The picture "{output}_{p}.jpg" that page p gives: its staircase, composed. */
  ghost function PagePicture(m: Responses, id: string, output: string, p: nat): Saved {
    Picture(SaveName(output, p), Entries(Staged(m, Ark(id, p), None)))
  }

  /** One step of fetch_all from a staging directory that is absent or empty. */
  lemma RunStep(m: Responses, id: string, output: string, page: nat, pageMax: nat, d: Option<Dir>)
    requires d == None || d == Some(map[])
    requires page <= pageMax
    ensures var ark := Ark(id, page);
      HasTiles(m, id, page) ==>
        Run(m, id, output, page, pageMax, d) ==
          var rest := Run(m, id, output, page + 1, pageMax, None);
          rest.(saved := [PagePicture(m, id, output, page)] + rest.saved,
                requests := GridProbes(m, ark, 0) + rest.requests)
    ensures !HasTiles(m, id, page) ==>
      Run(m, id, output, page, pageMax, d) ==
        RunState([], Some(if d.None? then StagingMissing else PageMissing), d, GridProbes(m, Ark(id, page), 0), page)
  {
    PageOutcome(m, Ark(id, page), SaveName(output, page), d);
    HasTilesIffFound(m, id, page);
  }

  /** The shape of one step, without the picture: what RunPages and RunStops need. */
  lemma RunStepShape(m: Responses, id: string, output: string, page: nat, pageMax: nat, d: Option<Dir>)
    requires d == None || d == Some(map[])
    requires page <= pageMax
    ensures var r, rest := Run(m, id, output, page, pageMax, d), Run(m, id, output, page + 1, pageMax, None);
      HasTiles(m, id, page) ==>
        r.page == rest.page && r.stop == rest.stop && r.staging == rest.staging && |r.saved| == 1 + |rest.saved|
    ensures var r := Run(m, id, output, page, pageMax, d);
      !HasTiles(m, id, page) ==>
        r.page == page && r.saved == [] && r.staging == d && r.stop == Some(if d.None? then StagingMissing else PageMissing)
  {
    RunStep(m, id, output, page, pageMax, d);
  }

  /**
   * Where fetch_all stops, from a staging directory that is absent or empty:
   * one picture per page from `page` on, up to page_max or the first page
   * without tiles, which is in range.
   */
  lemma {:induction false} RunEnd(m: Responses, id: string, output: string, page: nat, pageMax: nat, d: Option<Dir>)
    requires d == None || d == Some(map[])
    ensures var r := Run(m, id, output, page, pageMax, d);
      && r.page == page + |r.saved|
      && (r.stop.None? ==> r.page > pageMax)
      && (r.stop.Some? ==> r.page <= pageMax && !HasTiles(m, id, r.page))
    decreases pageMax + 1 - page
  {
    if page <= pageMax {
      RunStepShape(m, id, output, page, pageMax, d);
      if HasTiles(m, id, page) {
        RunEnd(m, id, output, page + 1, pageMax, None);
      }
    }
  }

  /** Every page fetch_all gets past has tiles. */
  lemma {:induction false} RunPassed(m: Responses, id: string, output: string, page: nat, pageMax: nat, d: Option<Dir>, p: nat)
    requires d == None || d == Some(map[])
    requires page <= p < Run(m, id, output, page, pageMax, d).page
    ensures HasTiles(m, id, p)
    decreases p - page
  {
    if page <= pageMax {
      RunStepShape(m, id, output, page, pageMax, d);
      if p > page {
        RunPassed(m, id, output, page + 1, pageMax, None, p);
      }
    }
  }

  /** fetch_all reaches page_max without stopping exactly when every page in range has tiles. */
  lemma RunCompletes(m: Responses, id: string, output: string, page: nat, pageMax: nat, d: Option<Dir>)
    requires d == None || d == Some(map[])
    ensures Run(m, id, output, page, pageMax, d).stop.None? <==> forall p :: page <= p <= pageMax ==> HasTiles(m, id, p)
  {
    RunEnd(m, id, output, page, pageMax, d);
    if Run(m, id, output, page, pageMax, d).stop.None? {
      forall p | page <= p <= pageMax
        ensures HasTiles(m, id, p)
      {
        RunPassed(m, id, output, page, pageMax, d, p);
      }
    }
  }

  /**
   * What fetch_all saves: picture k is "{output}_{page + k}.jpg" and shows
   * exactly the staircase of page page + k.
   */
  lemma {:induction false} RunPicture(m: Responses, id: string, output: string, page: nat, pageMax: nat, d: Option<Dir>, k: nat)
    requires d == None || d == Some(map[])
    requires k < |Run(m, id, output, page, pageMax, d).saved|
    ensures Run(m, id, output, page, pageMax, d).saved[k] == PagePicture(m, id, output, page + k)
    decreases k
  {
    RunStep(m, id, output, page, pageMax, d);
    if k > 0 {
      RunPicture(m, id, output, page + 1, pageMax, None, k - 1);
      assert page + 1 + (k - 1) == page + k;
    }
  }

  /**
   * How fetch_all stops, from a staging directory that is absent or empty:
   * PageException (exit status 2) only when the failing page is the first
   * one and TEMP was still there; a later page without tiles finds TEMP
   * removed by the previous compose. TEMP is left as the run found it when
   * nothing was saved, and removed otherwise.
   */
  lemma {:induction false} RunStops(m: Responses, id: string, output: string, page: nat, pageMax: nat, d: Option<Dir>)
    requires d == None || d == Some(map[])
    ensures var r := Run(m, id, output, page, pageMax, d);
      && r.staging == (if r.saved == [] then d else None)
      && (r.stop.Some? ==> r.stop == Some(if r.saved == [] && d.Some? then PageMissing else StagingMissing))
    decreases pageMax + 1 - page
  {
    if page <= pageMax {
      RunStepShape(m, id, output, page, pageMax, d);
      if HasTiles(m, id, page) {
        RunStops(m, id, output, page + 1, pageMax, None);
      }
    }
  }

  /**
   * The first page fails when it has no tiles: PageException, exit status 2,
   * nothing saved, nothing left in TEMP.
   */
  lemma FirstPageMissing(m: Responses, id: string, output: string, page: nat, pageMax: nat)
    requires page <= pageMax && !HasTiles(m, id, page)
    ensures Run(m, id, output, page, pageMax, Some(map[])) ==
      RunState([], Some(PageMissing), Some(map[]), GridProbes(m, Ark(id, page), 0), page)
  {
    RunStep(m, id, output, page, pageMax, Some(map[]));
  }

  /**
   * As written: when a page with tiles is followed by one without, compose
   * has already removed TEMP, so the second page ends the run with
   * FileNotFoundError from os.listdir rather than "The page doesn't exist"
   * and exit status 2.
   */
  lemma LaterPageMissingCrashes(m: Responses, id: string, output: string, page: nat, pageMax: nat)
    requires page < pageMax && HasTiles(m, id, page) && !HasTiles(m, id, page + 1)
    ensures var r := Run(m, id, output, page, pageMax, Some(map[]));
      r.stop == Some(StagingMissing) && r.page == page + 1 && |r.saved| == 1
  {
    RunStepShape(m, id, output, page, pageMax, Some(map[]));
    RunStepShape(m, id, output, page + 1, pageMax, None);
  }

  /** What compose evidently means to do: a page with no tiles raises PageException, whether or not TEMP still exists. */
  ghost function IntendedOutcome(d: Option<Dir>, name: string): (r: Result<Saved, Stop>)
    ensures r.Err? ==> r.error == PageMissing
    ensures r.Err? <==> Entries(d) == map[]
  {
    if d.None? || d.value == map[] then Err(PageMissing)
    else Ok(Picture(name, d.value))
  }

  /** fetch_all with the intended compose. */
  ghost function IntendedRun(m: Responses, id: string, output: string, page: nat, pageMax: nat, d: Option<Dir>): RunState
    decreases pageMax + 1 - page
  {
    if page > pageMax then RunState([], None, d, [], page)
    else
      var ark := Ark(id, page);
      var staged := Staged(m, ark, d);
      match IntendedOutcome(staged, SaveName(output, page))
      case Err(stop) => RunState([], Some(stop), staged, GridProbes(m, ark, 0), page)
      case Ok(picture) =>
        var rest := IntendedRun(m, id, output, page + 1, pageMax, None);
        rest.(saved := [picture] + rest.saved, requests := GridProbes(m, ark, 0) + rest.requests)
  }

  /**
   * Corrected: every page without tiles ends the run with PageException
   * (exit status 2), wherever it falls; otherwise the run does what the
   * code as written does.
   */
  lemma {:induction false} IntendedRunStops(m: Responses, id: string, output: string, page: nat, pageMax: nat, d: Option<Dir>)
    requires d == None || d == Some(map[])
    ensures var r := IntendedRun(m, id, output, page, pageMax, d);
      var w := Run(m, id, output, page, pageMax, d);
      && (r.stop.Some? ==> r.stop == Some(PageMissing))
      && (r.stop.None? <==> w.stop.None?)
      && r.saved == w.saved && r.requests == w.requests && r.page == w.page && r.staging == w.staging
    decreases pageMax + 1 - page
  {
    if page <= pageMax {
      PageOutcome(m, Ark(id, page), SaveName(output, page), d);
      if HasTiles(m, id, page) {
        IntendedRunStops(m, id, output, page + 1, pageMax, None);
      }
    }
  }
}
