/**
 * The arithmetic of `Gallica.compose`, shared by all three versions: the
 * canvas is as wide as the tiles whose file name starts with x = 0 and as
 * tall as the tiles whose name has y = 0; each tile (x, y) is pasted with
 * its left edge at y and its top edge at x.
 */
module Compose {
  import opened Text
  import opened Grid
  import opened Staging

  /** One `image.paste(tile, (left, top))`. */
  datatype Placement = Placement(tile: Image, left: nat, top: nat)

  /** The picture built by compose: its size and the pastes, in order. */
  datatype Canvas = Canvas(width: nat, height: nat, pasted: seq<Placement>)

  /** The two running totals: `total_width` (Across) and `total_heigth` (Down). */
  datatype Axis = Across | Down

  /** What the tile at c adds to a total: its width when x = 0, its height when y = 0. */
  function Term(dir: Dir, c: Coord, axis: Axis): nat
    requires c in dir
  {
    match axis
    case Across => if c.x == 0 then dir[c].width else 0
    case Down => if c.y == 0 then dir[c].height else 0
  }

  ghost function Pick(keys: set<Coord>): Coord
    requires keys != {}
  {
    var c :| c in keys; c
  }

  /** The sum of the terms of the tiles in keys, in no particular order. */
  ghost function SumOver(dir: Dir, keys: set<Coord>, axis: Axis): nat
    requires keys <= dir.Keys
    decreases keys
  {
    if keys == {} then 0
    else
      var c := Pick(keys);
      Term(dir, c, axis) + SumOver(dir, keys - {c}, axis)
  }

  /** Any tile can be counted first: the sum does not depend on the order of the tiles. */
  lemma {:induction false} SumOverRemove(dir: Dir, keys: set<Coord>, axis: Axis, c: Coord)
    requires keys <= dir.Keys && c in keys
    ensures SumOver(dir, keys, axis) == Term(dir, c, axis) + SumOver(dir, keys - {c}, axis)
    decreases keys
  {
    var d := Pick(keys);
    if d != c {
      SumOverRemove(dir, keys - {d}, axis, c);
      SumOverRemove(dir, keys - {c}, axis, d);
      assert keys - {d} - {c} == keys - {c} - {d};
    }
  }

  /** Canvas width: the widths of the tiles with x = 0, added up. */
  ghost function CanvasWidth(dir: Dir): nat {
    SumOver(dir, dir.Keys, Across)
  }

  /** Canvas height: the heights of the tiles with y = 0, added up. */
  ghost function CanvasHeight(dir: Dir): nat {
    SumOver(dir, dir.Keys, Down)
  }

  /** Where the tile staged at c is pasted: left edge y, top edge x (the axes are swapped). */
  function Placed(dir: Dir, c: Coord): (p: Placement)
    requires c in dir
    ensures p.tile == dir[c] && p.left == c.y && p.top == c.x
  {
    Placement(dir[c], c.y, c.x)
  }

  /** Every tile of the directory, pasted where compose puts it. */
  ghost function Placements(dir: Dir): set<Placement> {
    set c | c in dir :: Placed(dir, c)
  }

  /**
   * The first loop of compose: `total_width` and `total_heigth` over the
   * listing `names`, whatever its order. The file of each listed name holds
   * the tile staged at the coordinates the name decodes to.
   */
  method Totals(dir: Dir, names: seq<string>, ghost cs: seq<Coord>) returns (totalWidth: nat, totalHeight: nat)
    requires ReadsBack(names, cs, dir)
    ensures totalWidth == CanvasWidth(dir) && totalHeight == CanvasHeight(dir)
  {
    totalWidth, totalHeight := 0, 0;
    ghost var seen: set<Coord> := {};
    for i := 0 to |names|
      invariant seen <= dir.Keys
      invariant forall c :: c in seen <==> c in cs[..i]
      invariant totalWidth == SumOver(dir, seen, Across)
      invariant totalHeight == SumOver(dir, seen, Down)
    {
      var pos := DecodeName(names[i]).value;
      var img := dir[pos];
      if pos.x == 0 {
        totalWidth := totalWidth + img.width;
      }
      if pos.y == 0 {
        totalHeight := totalHeight + img.height;
      }
      CountOnce(dir, cs, i, seen);
      seen := seen + {pos};
    }
    assert cs[..|names|] == cs;
    assert seen == dir.Keys;
  }

  /** One step of the first loop: the i-th listed tile has not been counted yet. */
  lemma CountOnce(dir: Dir, cs: seq<Coord>, i: nat, seen: set<Coord>)
    requires i < |cs| && Distinct(cs) && cs[i] in dir
    requires seen <= dir.Keys
    requires forall c :: c in seen <==> c in cs[..i]
    ensures forall c :: c in seen + {cs[i]} <==> c in cs[..i + 1]
    ensures SumOver(dir, seen + {cs[i]}, Across) == Term(dir, cs[i], Across) + SumOver(dir, seen, Across)
    ensures SumOver(dir, seen + {cs[i]}, Down) == Term(dir, cs[i], Down) + SumOver(dir, seen, Down)
  {
    var c := cs[i];
    assert cs[..i + 1] == cs[..i] + [c];
    assert c !in seen;
    SumOverRemove(dir, seen + {c}, Across, c);
    SumOverRemove(dir, seen + {c}, Down, c);
    assert seen + {c} - {c} == seen;
  }

  /** The second loop of compose: one paste per listed file, at (y, x). */
  method Paste(dir: Dir, names: seq<string>, ghost cs: seq<Coord>) returns (pasted: seq<Placement>)
    requires ReadsBack(names, cs, dir)
    ensures |pasted| == |names|
    ensures forall p :: p in pasted <==> p in Placements(dir)
  {
    pasted := [];
    for i := 0 to |names|
      invariant |pasted| == i
      invariant forall k :: 0 <= k < i ==> pasted[k] == Placed(dir, cs[k])
    {
      var pos := DecodeName(names[i]).value;
      pasted := pasted + [Placement(dir[pos], pos.y, pos.x)];
    }
    forall p | p in Placements(dir)
      ensures p in pasted
    {
      var c :| c in dir && p == Placed(dir, c);
      var k :| 0 <= k < |cs| && cs[k] == c;
    }
  }

  /**
   * Compose's two loops over the listing `names` of the staging directory
   * `dir`. Whatever order the listing has, the canvas has the same size and
   * receives every tile once, at its swapped position.
   */
  method Assemble(dir: Dir, names: seq<string>, ghost cs: seq<Coord>) returns (canvas: Canvas)
    requires ReadsBack(names, cs, dir)
    ensures canvas.width == CanvasWidth(dir) && canvas.height == CanvasHeight(dir)
    ensures |canvas.pasted| == |names|
    ensures forall p :: p in canvas.pasted <==> p in Placements(dir)
  {
    var totalWidth, totalHeight := Totals(dir, names, cs);
    var pasted := Paste(dir, names, cs);
    canvas := Canvas(totalWidth, totalHeight, pasted);
  }

  /** Why compose saves nothing: the run of the script ends there. */
  datatype Stop =
    | PageMissing     // PageException in compose, then sys.exit(2) in fetch
    | StagingMissing  // os.listdir on a TEMP that no longer exists: FileNotFoundError
    | SaveRefused     // image.save of a canvas with no pixels: PIL raises instead of writing

  /** A picture written by `image.save`: its file name, its size and its tiles. */
  datatype Saved = Saved(name: string, width: nat, height: nat, tiles: set<Placement>)

  /** The picture compose saves for the staged tiles dir. */
  ghost function Picture(name: string, dir: Dir): Saved {
    Saved(name, CanvasWidth(dir), CanvasHeight(dir), Placements(dir))
  }

  /**
   * The canvas built from the listing `names` of `dir`, as `image.save`
   * writes it under `name`: the same picture whatever the listing order.
   */
  method Render(name: string, dir: Dir, names: seq<string>, ghost cs: seq<Coord>) returns (picture: Saved)
    requires ReadsBack(names, cs, dir)
    ensures picture == Picture(name, dir)
  {
    var canvas := Assemble(dir, names, cs);
    var tiles := set p | p in canvas.pasted;
    assert tiles == Placements(dir);
    picture := Saved(name, canvas.width, canvas.height, tiles);
  }
}
