# Gallica tile fetcher — a Dafny model

Gallica, the digital library of the Bibliothèque nationale de France, serves a
document page only as square tiles of at most 2236 × 2236 pixels, through its
`/proxy` endpoint. The fetcher script asks for the tiles of one or more pages,
stages each tile as a file, and pastes the tiles into one picture per page.

The repository keeps three versions of the script:

- `gallica_fetcher/gallica_fetcher.py`: the package version. It fetches pages
  `page_min..page_max` into `{output}_{page}.jpg`.
- `gallica_fetcher.py`: an older copy of the package version. Its tile, compose
  and option logic is the same. It differs in its messages (in French, written
  to stdout rather than stderr), its parameter names (`pageMin`, `pageMax`,
  `out`) and its transport (`HTTPConnection` rather than `HTTPSConnection`).
- `Gallica_fetcher.py`: the original single-page script. It always fetches
  page 1, stages tiles in `tmp/`, has no empty-page check and saves under the
  output name as given.

The model covers the tile-grid engine and the pure helpers around it.

| module (file) | what it models | package version | older copy | single-page |
|---|---|---|---|---|
| `Grid` (grid.dfy) | the server's answers, and what the probe walk requests and finds | 27, 71-86 | 20, 49-64 | 10, 33-48 |
| `Probe` (probe.dfy) | the two nested status loops of `fetch`, and `create_image` | 71-86, 93-105 | 49-64, 71-80 | 33-48, 52-61 |
| `Staging` (staging.dfy) | the staging directory (`TEMP` or `tmp/`), tile file names and their decoding | 28, 93-138 | 21, 71-109 | 52-86 |
| `Compose` (compose.dfy) | the two loops of `compose`: canvas size and paste positions | 116-131 | 87-102 | 66-81 |
| `Request` (request.dfy) | the parameters of `request` | 140-158 | 111-126 | 88-103 |
| `Cli` (cli.dfy) | the option loop of `main`, `-p` parsing, `parse_url` | 44-55, 173-216 | 31-39, 138-178 | 21-28, 110-130 |
| `Fetcher` (fetcher.dfy) | the multi-page `Gallica` class: `fetch`, `compose`, `fetch_all` | 20-138 | 12-109 | — |
| `Legacy` (legacy.dfy) | the single-page `Gallica` class | — | — | 13-86 |
| `Text` (text.dfy), `Wrappers` (wrappers.dfy) | `str`/`format` of integers, `int`, `str.split`; Option and Result | | | |

How the model stands in for what it does not run:

- The server is a fixed table from requests `(ark, x, y)` to answers
  (status, image size). A request not in the table is answered 404. Its
  finite extent gives the walk its termination measure. A ghost log records
  every request sent.
- An image is its `(width, height)`.
- The staging directory is `None` when absent. Otherwise it is a map from
  tile coordinates to images. Its file-name view (`Staging.Files`) names the
  tile at `(x, y)` as `"{x}_{y}_.jpg"`.
- A saved picture is its name, its size and its set of placements
  `(tile, left, top)`.
- `sys.exit(n)` is an `Err(n)` result. A page ends a run in one of the three
  ways of `Compose.Stop`:
  - `PageMissing`: `PageException`, then exit status 2. Only the multi-page versions raise it.
  - `StagingMissing`: `os.listdir` on a directory that no longer exists. All three versions can reach it.
  - `SaveRefused`: `image.save` on a canvas of zero width or height. The single-page model reaches it; the multi-page model leaves it out (see "Left out").

The central results are these:

- The tiles staged for a page are exactly the staircase `{(i·2236, j·2236) | i < R, j < C_i}`. R is the first row whose `(x, 0)` request fails; C_i is the first failing column of row i (`Grid.Staircase`, `Probe.StagedStaircase`).
- A page costs exactly `Σ_{i<R} (C_i + 1) + 1` requests, sent in row-major order (`Grid.ProbeCount`, `Grid.ProbesRowMajor`).
- A tile file name decodes back to its coordinates (`Staging.DecodeTileName`).
- The canvas size and the placements do not depend on the order of the listing (`Compose.Assemble`).
- What `fetch_all` saves and where it stops (`Fetcher.RunEnd`, `Fetcher.RunPicture`, `Fetcher.RunStops`).

## Model

| member | source | states |
|---|---|---|
| Text.NatToString | gallica_fetcher/gallica_fetcher.py:102 | the rendering of a coordinate or page number is a non-empty string of decimal digits with no leading zero |
| Text.ParseInt | gallica_fetcher/gallica_fetcher.py:122 | `int` accepts exactly an optional `+` followed by one or more digits, and gives their decimal value; text with any other character is rejected |
| Text.ParseNatToString | gallica_fetcher/gallica_fetcher.py:122-124 | `int(str(n)) == n`: compose reads back exactly the number the file name was written with |
| Text.NatToStringInjective | gallica_fetcher/gallica_fetcher.py:102 | different numbers are rendered differently |
| Text.Split | gallica_fetcher/gallica_fetcher.py:119 | `split` gives one more piece than there are separators, and no piece contains the separator |
| Text.JoinSplit | gallica_fetcher/gallica_fetcher.py:119 | joining the pieces with the separator gives back the original text |
| Text.SplitCons | gallica_fetcher/gallica_fetcher.py:119 | splitting `a + sep + b`, with `sep` not in `a`, gives `a` followed by the pieces of `b` |
| Text.SplitFirst | gallica_fetcher/gallica_fetcher.py:51 | `split(sep)[0]` is the text up to its first separator, or all of it |
| Text.SplitNoSep | gallica_fetcher/gallica_fetcher.py:51 | text without the separator splits into itself alone |
| Grid.RunFromFirstFailure | gallica_fetcher/gallica_fetcher.py:80-85 | in a row, the first RunFrom columns are answered 200 and the next one is not |
| Grid.RowsFromFirstFailure | gallica_fetcher/gallica_fetcher.py:73-77 | the first RowsFrom rows have `(x, 0)` answered 200 and the next row does not |
| Grid.CountsAreFirstFailures | gallica_fetcher.py:51-63 | R and C_i are the first failures: a non-200 at y = 0 ends the page, and one at y > 0 ends only its row |
| Grid.RowTilesShape | gallica_fetcher/gallica_fetcher.py:80-85 | every tile found in row x lies in that row, at a multiple of 2236 past the start, and was answered 200 |
| Grid.GridTilesShape | gallica_fetcher/gallica_fetcher.py:71-86 | every tile found lies at non-negative multiples of 2236 on both axes and was answered 200 |
| Grid.RowTilesMember | gallica_fetcher/gallica_fetcher.py:80-85 | `(x, y + j·2236)` is found in the row exactly when j < RunFrom |
| Grid.GridTilesMember | gallica_fetcher/gallica_fetcher.py:71-86 | grid position (k + i, j) is found exactly when i < RowsFrom and j < C_{k+i} |
| Grid.Staircase | gallica_fetcher/gallica_fetcher.py:71-86 | the tiles found are exactly `(i·2236, j·2236)` with i < R and j < C_i; every tile found lies on that grid and was answered 200 |
| Grid.RowProbesLength | gallica_fetcher/gallica_fetcher.py:80-85 | the rest of a row costs RunFrom + 1 requests: the successes and one failure |
| Grid.GridProbesLength | gallica_fetcher/gallica_fetcher.py:73-86 | the walk from row k on costs the requests of its whole rows plus one failing row probe |
| Grid.ProbeCount | gallica_fetcher/gallica_fetcher.py:73-86 | a page costs exactly `Σ_{i<R} (C_i + 1) + 1` requests |
| Grid.GridProbesRowStarts | gallica_fetcher/gallica_fetcher.py:74-76 | the `(x + i·2236, 0)` probe of every row up to the failing one is sent |
| Grid.GridProbesLast | gallica_fetcher/gallica_fetcher.py:73-76 | the last request of the walk is the failing `(x + RowsFrom·2236, 0)` probe |
| Grid.RowBoundaries | gallica_fetcher.py:51-55 | every row start `(i·2236, 0)` with i <= R is requested, and the page's last request is `(R·2236, 0)` |
| Grid.RowProbesOrder | gallica_fetcher/gallica_fetcher.py:80-85 | a row's requests are in increasing y order, all in that row, none left of the start |
| Grid.GridProbesOrder | gallica_fetcher/gallica_fetcher.py:71-86 | the walk's requests are in row-major order, and none lies above the starting row |
| Grid.ProbesRowMajor | gallica_fetcher/gallica_fetcher.py:71-86 | a page's requests are in row-major order, so no tile is requested twice |
| Grid.RowTilesAreSuccesses | gallica_fetcher/gallica_fetcher.py:82-85 | a tile is found in a row exactly when it was requested there and answered 200 |
| Grid.GridTilesAreSuccesses | gallica_fetcher/gallica_fetcher.py:75-85 | a tile is found exactly when it was requested and answered 200 |
| Grid.StagedIffAnswered200 | gallica_fetcher/gallica_fetcher.py:76-85 | only status-200 answers are staged, and every 200 answer received is staged; any other status is a boundary |
| Staging.SplitTileName | gallica_fetcher/gallica_fetcher.py:119 | `"{x}_{y}_.jpg".split("_")` is `[str(x), str(y), ".jpg"]` |
| Staging.DecodeTileName | gallica_fetcher/gallica_fetcher.py:119-124 | staging-key round trip: `int(pos[0])`, `int(pos[1])` of a tile's file name are its x and y |
| Staging.TileNameInjective | gallica_fetcher/gallica_fetcher.py:102 | different tiles are written to different files |
| Staging.Files | gallica_fetcher/gallica_fetcher.py:112 | the directory as `listdir` and `Image.open` see it: one file per tile, named after the tile and holding its image, and no other file |
| Staging.StageAppend | gallica_fetcher/gallica_fetcher.py:93-105 | writing tiles a then b leaves the same directory as writing a + b |
| Staging.StageContents | gallica_fetcher/gallica_fetcher.py:99-104 | after writing tiles the directory exists exactly when it existed or a tile was written; it holds the old files plus one per tile, and each holds the image the server sent |
| Staging.StageUntouched | gallica_fetcher/gallica_fetcher.py:102-104 | a file not rewritten keeps its contents |
| Staging.DecodeListing | gallica_fetcher/gallica_fetcher.py:112-131 | any listing that names every file once reads back: each name decodes to the tile its file holds, and every tile is listed once |
| Staging.ListingIsEnumeration | gallica_fetcher/gallica_fetcher.py:112 | conversely, the tiles' own names, each once, list exactly the directory's files |
| Staging.TempDir.constructor | gallica_fetcher/gallica_fetcher.py:28 | the directory starts in the given state (`mkdtemp` makes it empty) |
| Staging.TempDir.Store | gallica_fetcher/gallica_fetcher.py:99-105 | `create_image` creates the directory when missing and writes the tile's file, leaving the other files alone |
| Staging.NamesReadBack | gallica_fetcher/gallica_fetcher.py:112-124 | a listing of the tiles' own names, each tile once, reads back, and every staged tile's file is in it |
| Staging.TempDir.List | gallica_fetcher/gallica_fetcher.py:112 | `os.listdir` returns each tile's file name once, in some order, and every staged tile's file is listed |
| Staging.TempDir.Remove | gallica_fetcher/gallica_fetcher.py:138 | `rmtree` leaves no directory |
| Probe.Server.constructor | gallica_fetcher/gallica_fetcher.py:155-157 | the server answers from a fixed table, and nothing has been requested yet |
| Probe.Server.Get | gallica_fetcher/gallica_fetcher.py:155-158 | a request's answer depends on `(ark, x, y)` only, and the request is logged |
| Probe.ProbeCell | gallica_fetcher/gallica_fetcher.py:75-78 | one request; its status is 200 exactly when the table says so, and only then is the tile written |
| Probe.ProbeRow | gallica_fetcher/gallica_fetcher.py:79-85 | the inner loop sends exactly the row's remaining requests and stages exactly the row's remaining tiles |
| Probe.ProbeColumn | gallica_fetcher/gallica_fetcher.py:74-85 | one pass of the outer loop: a failing `(x, 0)` costs one request and stages nothing; otherwise the whole row is requested and staged |
| Probe.ProbeGrid | gallica_fetcher/gallica_fetcher.py:71-86 | the two loops send exactly the page's requests, in order, and stage exactly the page's tiles |
| Probe.StagedStaircase | gallica_fetcher/gallica_fetcher.py:71-105 | from an absent or empty directory, a page leaves exactly the staircase, each file holding the server's image, and a directory exactly when a tile was found |
| Probe.StageFromNothing | gallica_fetcher/gallica_fetcher.py:100-101 | once a tile is written it makes no difference whether the directory was absent or empty |
| Compose.SumOverRemove | gallica_fetcher/gallica_fetcher.py:118-125 | the totals do not depend on the order the tiles are counted in |
| Compose.Placed | gallica_fetcher/gallica_fetcher.py:131 | tile (x, y) is pasted with its left edge at y and its top edge at x (the axes are swapped) |
| Compose.Totals | gallica_fetcher/gallica_fetcher.py:116-125 | the first loop gives the sum of the widths of the tiles with x = 0 and of the heights of the tiles with y = 0, whatever the listing order |
| Compose.Paste | gallica_fetcher/gallica_fetcher.py:128-131 | the second loop pastes once per listed file, and pastes exactly every staged tile at its swapped position |
| Compose.Assemble | gallica_fetcher.py:87-102 | the canvas has the two sums as its size and receives every tile once, at `(y, x)` |
| Compose.Render | gallica_fetcher/gallica_fetcher.py:116-134 | the picture saved is the same, `Picture(name, dir)`, whatever the listing order |
| Request.Ark | gallica_fetcher/gallica_fetcher.py:146 | the page reference is the id, then `.f`, then the page number |
| Request.Params | gallica_fetcher/gallica_fetcher.py:144-154 | the parameters are `method=R`, `ark=…`, `l=7` and `r`, in that order, where `r` is the four fields `x,y,2236,2236` |
| Request.SizeTileString | gallica_fetcher/gallica_fetcher.py:27 | the tile size is written as `2236` |
| Request.RegionFields | gallica_fetcher/gallica_fetcher.py:153-154 | the region reads `x,y,2236,2236` |
| Request.RegionRoundTrip | gallica_fetcher.py:121-122 | the region has four fields, and the first two parse back to x and y |
| Request.ParamsInjective | gallica_fetcher/gallica_fetcher.py:144-154 | different tile requests have different parameters |
| Request.ArkInjective | gallica_fetcher/gallica_fetcher.py:146 | different pages of a document have different references |
| Request.LegacyArkIsFirstPage | Gallica_fetcher.py:18 | the single-page script's reference `id + ".f1"` is the page-1 reference, so only page 1 is requested |
| Cli.ParsePages | gallica_fetcher/gallica_fetcher.py:195-212 | an accepted `-p` value gives `1 <= first <= last` |
| Cli.ParsePagesAccepted | gallica_fetcher/gallica_fetcher.py:197-203 | an accepted `-p` value is one integer, or two joined by a single `-`, and the range's ends are their values; any other text is rejected |
| Cli.NumeralHasNoDash | gallica_fetcher/gallica_fetcher.py:197 | a number `int` accepts contains no `-`, so it never takes the range branch by itself |
| Cli.ParsePagesRange | gallica_fetcher/gallica_fetcher.py:197-208 | `"s-t"`, with s and t any spellings `int` accepts (`01`, `+1`, `7`), is accepted exactly when `1 <= a <= b` for their values, and then gives a..b |
| Cli.ParsePagesSingle | gallica_fetcher.py:163-170 | any spelling `"s"` that `int` accepts is accepted exactly when its value a is at least 1, and then gives a..a |
| Cli.ParsePagesCanonical | gallica_fetcher/gallica_fetcher.py:197-208 | in particular `"{a}-{b}"` gives a..b when `1 <= a <= b`, and `"{a}"` gives a..a when a >= 1 |
| Cli.ParsePagesExtraDash | gallica_fetcher.py:160 | two or more dashes make the unpacking fail, and the value is rejected |
| Cli.Configure | gallica_fetcher/gallica_fetcher.py:187-216 | the option loop stops at the first exit (`-h` with 0, a bad `-p` with 2) and ends with "Missing Url" when no url was given |
| Cli.PagesUnlessGiven | gallica_fetcher.py:141 | without `-p` the page range stays as it was, so the default is 1..1 |
| Cli.OutputUnlessGiven | gallica_fetcher/gallica_fetcher.py:193-194 | options other than `-o` leave the output name as it was |
| Cli.LegacyOutputDefault | Gallica_fetcher.py:110-124 | in the single-page script, whose getopt admits no `-p`, a run without `-o` writes to "out.jpg", and a run goes ahead only with a url |
| Cli.UrlRequired | gallica_fetcher/gallica_fetcher.py:213-216 | without `-u`, `main` always exits |
| Cli.UrlUnlessGiven | gallica_fetcher/gallica_fetcher.py:191-192 | options other than `-u` leave the url as it was |
| Cli.BadPagesExit | gallica_fetcher/gallica_fetcher.py:209-212 | a malformed `-p` exits with status 2 unless `-h` came earlier |
| Cli.ParseUrl | gallica_fetcher/gallica_fetcher.py:44-55 | exit status 2 exactly when the path has fewer than four `/`-segments; otherwise the id is the fourth segment up to its first `.` (all of it when it has none) |
| Cli.ParseDocumentPath | gallica_fetcher.py:35 | for a path `/p1/p2/id.ext` the id extracted is `id` |
| Fetcher.Gallica.constructor | gallica_fetcher/gallica_fetcher.py:28-42 | a new fetcher starts at `page_min` with an empty staging directory and nothing saved |
| Fetcher.Gallica.Compose | gallica_fetcher/gallica_fetcher.py:107-138 | a missing directory fails in `listdir`; an empty one raises PageException; otherwise the picture of the staged tiles is saved as `{output}_{page}.jpg` and the directory removed |
| Fetcher.Gallica.Fetch | gallica_fetcher/gallica_fetcher.py:65-91 | one page: exactly the page's requests, then compose on the directory the probe walk left |
| Fetcher.Gallica.FetchAll | gallica_fetcher/gallica_fetcher.py:57-63 | the loop saves, requests and stops exactly as `Run` says: pages in ascending order, ending at the first stop |
| Fetcher.HasTilesIffFound | gallica_fetcher/gallica_fetcher.py:73-78 | a page has tiles exactly when its first request `(0, 0)` is answered 200 |
| Fetcher.PageOutcome | gallica_fetcher/gallica_fetcher.py:99-115 | from an absent or empty directory, a page with tiles gives its picture; a page without tiles leaves the directory as it was and stops the run |
| Fetcher.RunStep | gallica_fetcher/gallica_fetcher.py:61-63 | one turn of `fetch_all`: either a picture and the rest of the run, or the stop on this page |
| Fetcher.RunStepShape | gallica_fetcher.py:42-44 | one turn of `fetch_all` moves on exactly when the page has tiles |
| Fetcher.RunEnd | gallica_fetcher/gallica_fetcher.py:57-63 | one picture per page from `page_min` on; a run that completes passes `page_max`; a stop happens on an in-range page without tiles |
| Fetcher.RunPassed | gallica_fetcher/gallica_fetcher.py:57-63 | every page the run gets past has tiles |
| Fetcher.RunCompletes | gallica_fetcher.py:41-44 | the run reaches `page_max` without stopping exactly when every page in range has tiles |
| Fetcher.RunPicture | gallica_fetcher/gallica_fetcher.py:133-134 | picture k is `{output}_{page_min + k}.jpg` and shows exactly the staircase of that page |
| Fetcher.RunStops | gallica_fetcher/gallica_fetcher.py:88-91 | PageException (exit 2) happens only on the first page; a later page without tiles fails in `listdir`; the directory is gone once something was saved |
| Fetcher.FirstPageMissing | gallica_fetcher/gallica_fetcher.py:112-115 | a first page without tiles raises PageException, saves nothing and leaves the empty directory |
| Fetcher.LaterPageMissingCrashes | gallica_fetcher/gallica_fetcher.py:112 | a page with tiles followed by one without: the second page fails in `listdir` instead of with PageException |
| Fetcher.IntendedOutcome | gallica_fetcher/gallica_fetcher.py:113-115 | the corrected compose stops only with PageException, and exactly when no tile is staged |
| Fetcher.IntendedRunStops | gallica_fetcher/gallica_fetcher.py:57-63 | with the corrected compose every stop is PageException, and everything else is as in the code as written |
| Legacy.Gallica.constructor | Gallica_fetcher.py:15-19 | the page reference is `id + ".f1"` and the output name is kept as given |
| Legacy.Gallica.Compose | Gallica_fetcher.py:63-86 | `tmp/` missing fails in `listdir`; a canvas of zero width or height cannot be saved, and `tmp/` stays; otherwise the picture is saved under the output name as given and `tmp/` removed |
| Legacy.Gallica.Fetch | Gallica_fetcher.py:30-50 | exactly page 1's requests, then compose on what the walk left in `tmp/` |
| Legacy.EmptyCanvas | Gallica_fetcher.py:65-77 | with no tiles both totals stay 0 and nothing is pasted |
| Legacy.NoTilesOutcome | Gallica_fetcher.py:63-86 | from an absent or empty `tmp/`, a page without tiles saves nothing: the empty canvas cannot be saved when `tmp/` existed, and listing fails when it did not; no page-missing error is ever raised |
| Legacy.TilesOutcome | Gallica_fetcher.py:30-86 | a page with tiles whose first tile has pixels saves the picture of exactly its staircase |
| Legacy.LeftoverTilesSaved | Gallica_fetcher.py:63-86 | when `tmp/` still holds tiles from an earlier run that stopped before `rmtree`, a page without tiles saves those old tiles under the output name |
| Legacy.LeftoverTilePasted | Gallica_fetcher.py:63-83 | every leftover tile the walk does not overwrite is pasted into the saved picture, beside the page's own tiles |

## Left out

- HTTP transport: connections, headers, HTTP vs HTTPS and `getresponse`. The server is a fixed table of answers, so a request made twice gets the same answer.
- PIL: decoding, pixel data, `Image.new`, and the pixels `paste` and `save` produce. That `save` refuses a canvas of zero width or height is PIL's behaviour, not the repository's; the single-page model stops there with `SaveRefused`. The file format chosen from the output name's extension is not modelled. An image is its size. A picture is its size and its set of placements, so what overlapping pastes leave on screen is not modelled.
- The order of the listing. `sorted(os.listdir(...))` is modelled as any order that names every file once. The model proves the result does not depend on that order, apart from the order of the pastes.
- Files in the staging directory that are not tile files. The directory holds only what `create_image` wrote. In the single-page script, `tmp/` as found at start-up is a constructor argument holding tiles.
- `urllib.parse.urlparse` and `urlencode`. `Cli.ParseUrl` takes the path of the url. `Request.Params` gives the parameters as (name, value) pairs rather than percent-encoded text.
- `getopt`: the option loop starts from the list of (option, argument) pairs, and getopt's own errors (exit 2) are not modelled. The single-page script has no `-p` option; getopt rejects it before the loop.
- `int`: modelled as an optional `+` followed by ASCII digits. Surrounding whitespace, `-0`, underscores between digits and non-ASCII digits are not accepted by the model.
- Page numbers are `nat`: `int` cannot give a negative page here, since the model of `int` has no `-`.
- The `x` and `y` fields set by `__init__` and never read.
- Messages written to stdout or stderr, `usage()`, and the `PageException` message.
- `Cli.ParseUrl`: does not state that the id is free of `/`, although `split` guarantees it.
- Fetcher.Gallica.constructor: `TEMP` is a class attribute, made once per process and shared by every `Gallica` object; the model gives each fetcher its own empty directory. This matches `main`, which makes a single fetcher. Two fetchers sharing one directory (one removing it under the other) are not modelled.
- Fetcher.Gallica.Compose: does not model PIL refusing to save a zero-size canvas. After a walk from an empty or absent `TEMP` a non-empty directory holds the `(0, 0)` tile, so this needs a server answering 200 with an image of no pixels.
- `Compose.Paste` and `Compose.Totals`: they read the staged tile by its decoded coordinates, not by opening the named file. `Staging.DecodeListing` proves the two are the same image.
- setup.py: packaging metadata, no logic.

## Findings

| source | as written | input that shows it | evidently intended | confidence | as-written member | corrected member |
|---|---|---|---|---|---|---|
| gallica_fetcher/gallica_fetcher.py:112 | `TEMP` is made once when the class is defined. `compose` removes it after every saved page, and only `create_image` makes it again. | `-p 1-2` where page 1 has tiles and page 2 answers 404 at (0, 0): page 1 is saved and `TEMP` removed; page 2 writes no tile, so `os.listdir(TEMP)` raises FileNotFoundError, an uncaught traceback. | a page without tiles prints "The page doesn't exist" and exits with status 2, whichever page it is (`gallica_fetcher.py:84-86` in the older copy behaves the same) | high; not executed | Fetcher.LaterPageMissingCrashes | Fetcher.IntendedRunStops |
