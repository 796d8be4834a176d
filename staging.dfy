/**
 * The staging directory (`TEMP` in the two newer versions, `tmp/` in the
 * oldest) and the names of the tile files kept in it.
 *
 * A tile fetched at (x, y) is written to the file "{x}_{y}_.jpg"; compose
 * reads the coordinates back with `name.split("_")`, `int(pos[0])` and
 * `int(pos[1])`. The directory itself may be absent: it is created by the
 * first tile write and removed after a page has been saved.
 */
module Staging {
  import opened Wrappers
  import opened Text
  import opened Grid

  /** The staging key of the tile at c: "{x}_{y}_.jpg". */
  function TileName(c: Coord): string {
    NatToString(c.x) + "_" + NatToString(c.y) + "_.jpg"
  }

  /** The coordinates compose reads from a file name, or None where `int` or the indexing fails. */
  function DecodeName(name: string): Option<Coord> {
    var pos := Split(name, '_');
    if |pos| >= 2 && ParseInt(pos[0]).Some? && ParseInt(pos[1]).Some? then
      Some(Coord(ParseInt(pos[0]).value, ParseInt(pos[1]).value))
    else None
  }

  lemma DigitsHaveNoUnderscore(n: nat)
    ensures '_' !in NatToString(n)
  {
  }

  /** Splitting "{x}_{y}_.jpg" on "_" gives [str(x), str(y), ".jpg"]. */
  lemma SplitTileName(c: Coord)
    ensures Split(TileName(c), '_') == [NatToString(c.x), NatToString(c.y), ".jpg"]
  {
    var a, b := NatToString(c.x), NatToString(c.y);
    var rest := b + ['_'] + ".jpg";
    assert Split(rest, '_') == [b, ".jpg"] by {
      DigitsHaveNoUnderscore(c.y);
      SplitCons(b, '_', ".jpg");
      SplitNoSep(".jpg", '_');
    }
    assert TileName(c) == a + ['_'] + rest;
    DigitsHaveNoUnderscore(c.x);
    SplitCons(a, '_', rest);
  }

  /**
   * Staging-key round trip: pos[0] and pos[1] of the split name parse back
   * to the x and y the tile was written under.
   */
  lemma DecodeTileName(c: Coord)
    ensures DecodeName(TileName(c)) == Some(c)
  {
    SplitTileName(c);
    ParseNatToString(c.x);
    ParseNatToString(c.y);
  }

  lemma TileNameInjective(c: Coord, d: Coord)
    requires TileName(c) == TileName(d)
    ensures c == d
  {
    DecodeTileName(c);
    DecodeTileName(d);
  }

  /**
   * A staging directory's contents: the tile written for each coordinate. The
   * file holding the tile at c is named TileName(c); `Files` gives the
   * directory as `os.listdir` and `Image.open` see it, keyed by file name.
   */
  type Dir = map<Coord, Image>

  function Files(dir: Dir): (files: map<string, Image>)
    ensures forall c :: c in dir ==> TileName(c) in files && files[TileName(c)] == dir[c]
    ensures forall n :: n in files ==> DecodeName(n).Some? && DecodeName(n).value in dir && TileName(DecodeName(n).value) == n
  {
    TileNamesInjective();
    var files := map c | c in dir :: TileName(c) := dir[c];
    assert forall n :: n in files ==> exists c :: c in dir && n == TileName(c);
    forall n | n in files
      ensures DecodeName(n).Some? && DecodeName(n).value in dir && TileName(DecodeName(n).value) == n
    {
      var c :| c in dir && n == TileName(c);
      DecodeTileName(c);
    }
    files
  }

  lemma TileNamesInjective()
    ensures forall c, d :: TileName(c) == TileName(d) ==> c == d
  {
    forall c, d | TileName(c) == TileName(d)
      ensures c == d
    {
      TileNameInjective(c, d);
    }
  }

  function Entries(d: Option<Dir>): Dir {
    if d.Some? then d.value else map[]
  }

  /** create_image: make the directory if it is missing, then write the tile file. */
  function WriteTile(d: Option<Dir>, c: Coord, img: Image): Option<Dir> {
    Some(Entries(d)[c := img])
  }

  /** The directory after the tiles cs of `ark` were written, in order. */
  function Stage(d: Option<Dir>, m: Responses, ark: string, cs: seq<Coord>): Option<Dir>
    decreases |cs|
  {
    if cs == [] then d else Stage(WriteTile(d, cs[0], Body(m, ark, cs[0])), m, ark, cs[1..])
  }

  lemma {:induction false} StageAppend(d: Option<Dir>, m: Responses, ark: string, a: seq<Coord>, b: seq<Coord>)
    ensures Stage(d, m, ark, a + b) == Stage(Stage(d, m, ark, a), m, ark, b)
    decreases |a|
  {
    if a == [] {
      assert a + b == b;
    } else {
      assert (a + b)[0] == a[0] && (a + b)[1..] == a[1..] + b;
      StageAppend(WriteTile(d, a[0], Body(m, ark, a[0])), m, ark, a[1..], b);
    }
  }

  /**
   * What staging leaves behind: the directory exists exactly when it existed
   * before or a tile was written; it holds the old files plus one file per
   * tile written, and each tile's file holds the image the server returned.
   */
  lemma {:induction false} StageContents(d: Option<Dir>, m: Responses, ark: string, cs: seq<Coord>)
    ensures Stage(d, m, ark, cs).Some? <==> d.Some? || cs != []
    ensures Entries(Stage(d, m, ark, cs)).Keys == Entries(d).Keys + set c | c in cs
    ensures forall c :: c in cs ==> Entries(Stage(d, m, ark, cs))[c] == Body(m, ark, c)
    decreases |cs|
  {
    if cs != [] {
      var d1 := WriteTile(d, cs[0], Body(m, ark, cs[0]));
      StageContents(d1, m, ark, cs[1..]);
      assert (set c | c in cs) == {cs[0]} + set c | c in cs[1..];
      forall c | c in cs
        ensures Entries(Stage(d, m, ark, cs))[c] == Body(m, ark, c)
      {
        if c !in cs[1..] {
          assert c == cs[0];
          StageUntouched(d1, m, ark, cs[1..], c);
        }
      }
    }
  }

  /** A key not written by staging keeps its old value. */
  lemma {:induction false} StageUntouched(d: Option<Dir>, m: Responses, ark: string, cs: seq<Coord>, c: Coord)
    requires c in Entries(d) && c !in cs
    ensures c in Entries(Stage(d, m, ark, cs)) && Entries(Stage(d, m, ark, cs))[c] == Entries(d)[c]
    decreases |cs|
  {
    if cs != [] {
      StageUntouched(WriteTile(d, cs[0], Body(m, ark, cs[0])), m, ark, cs[1..], c);
    }
  }

  predicate Enumerates(names: seq<string>, keys: set<string>) {
    && (forall i, j :: 0 <= i < j < |names| ==> names[i] != names[j])
    && (forall n :: n in names ==> n in keys)
    && (forall n :: n in keys ==> n in names)
  }

  predicate Distinct<T(==)>(s: seq<T>) {
    forall j, k :: 0 <= j < k < |s| ==> s[j] != s[k]
  }

  /**
   * The listing `names` read back as coordinates `cs`: the k-th name decodes
   * to cs[k], a staged tile, and every staged tile is met exactly once.
   */
  predicate ReadsBack(names: seq<string>, cs: seq<Coord>, dir: Dir) {
    && |cs| == |names|
    && (forall k :: 0 <= k < |cs| ==> cs[k] in dir)
    && (forall k {:trigger DecodeName(names[k])} :: 0 <= k < |cs| ==> DecodeName(names[k]) == Some(cs[k]))
    && Distinct(cs)
    && (forall c :: c in dir ==> c in cs)
  }

  /**
   * Any listing of the staging directory reads back: each name decodes to
   * the coordinates of the tile its file holds, and each tile is listed once.
   */
  lemma DecodeListing(dir: Dir, names: seq<string>) returns (cs: seq<Coord>)
    requires Enumerates(names, Files(dir).Keys)
    ensures ReadsBack(names, cs, dir)
    ensures forall k {:trigger Files(dir)[names[k]]} :: 0 <= k < |cs| ==>
      names[k] in Files(dir) && Files(dir)[names[k]] == dir[cs[k]]
  {
    var files := Files(dir);
    forall k | 0 <= k < |names|
      ensures DecodeName(names[k]).Some? && DecodeName(names[k]).value in dir
      ensures TileName(DecodeName(names[k]).value) == names[k]
    {
      assert names[k] in files;
    }
    cs := seq(|names|, k requires 0 <= k < |names| => DecodeName(names[k]).value);
    forall j, k | 0 <= j < k < |cs|
      ensures cs[j] != cs[k]
    {
      assert names[j] != names[k];
    }
    forall c | c in dir
      ensures c in cs
    {
      assert TileName(c) in files;
      var k :| 0 <= k < |names| && names[k] == TileName(c);
      DecodeTileName(c);
      assert cs[k] == c;
    }
  }

  /** A listing made of the tiles' own names, each once, lists exactly the directory's files. */
  lemma ListingIsEnumeration(dir: Dir, names: seq<string>, cs: seq<Coord>)
    requires ReadsBack(names, cs, dir)
    requires forall k :: 0 <= k < |names| ==> names[k] == TileName(cs[k])
    ensures Enumerates(names, Files(dir).Keys)
  {
    forall i, j | 0 <= i < j < |names|
      ensures names[i] != names[j]
    {
      if names[i] == names[j] {
        TileNameInjective(cs[i], cs[j]);
      }
    }
    ListedFilesExist(dir, names, cs);
    FilesListed(dir, names, cs);
  }

  lemma ListedFilesExist(dir: Dir, names: seq<string>, cs: seq<Coord>)
    requires |names| == |cs|
    requires forall k :: 0 <= k < |names| ==> cs[k] in dir && names[k] == TileName(cs[k])
    ensures forall n :: n in names ==> n in Files(dir)
  {
  }

  lemma FilesListed(dir: Dir, names: seq<string>, cs: seq<Coord>)
    requires |names| == |cs|
    requires forall k :: 0 <= k < |names| ==> names[k] == TileName(cs[k])
    requires forall c :: c in dir ==> c in cs
    ensures forall n :: n in Files(dir) ==> n in names
  {
    var files := Files(dir);
    forall n | n in files
      ensures n in names
    {
      var c := DecodeName(n).value;
      var k :| 0 <= k < |cs| && cs[k] == c;
      assert names[k] == n;
    }
  }

  /**
   * A listing made of the tiles' own names, each tile once, reads back, and
   * every staged tile's file name appears in it.
   */
  lemma NamesReadBack(dir: Dir, names: seq<string>, cs: seq<Coord>)
    requires |cs| == |names| && Distinct(cs)
    requires forall k :: 0 <= k < |names| ==> cs[k] in dir && names[k] == TileName(cs[k])
    requires forall c :: c in dir ==> c in cs
    ensures ReadsBack(names, cs, dir)
    ensures forall c :: c in dir ==> TileName(c) in names
  {
    forall k | 0 <= k < |names|
      ensures DecodeName(names[k]) == Some(cs[k])
    {
      DecodeTileName(cs[k]);
    }
    forall c | c in dir
      ensures TileName(c) in names
    {
      var k :| 0 <= k < |cs| && cs[k] == c;
      assert names[k] == TileName(c);
    }
  }

  /** The staging directory on disk: absent, or the tiles written into it. */
  class TempDir {
    var entries: Option<Dir>

    constructor (initial: Option<Dir>)
      ensures entries == initial
    {
      entries := initial;
    }

    /** `create_image`: create the directory when missing and write the tile's file. */
    method Store(c: Coord, img: Image)
      modifies this
      ensures entries == WriteTile(old(entries), c, img)
    {
      if entries.None? {
        entries := Some(map[]);
      }
      entries := Some(entries.value[c := img]);
    }

    /**
     * `os.listdir`: every file name once. The order the operating system
     * reports (and `sorted` then fixes) is left open.
     */
    method List() returns (names: seq<string>, ghost cs: seq<Coord>)
      requires entries.Some?
      ensures ReadsBack(names, cs, entries.value)
      ensures forall k :: 0 <= k < |names| ==> names[k] == TileName(cs[k])
      ensures forall c :: c in entries.value ==> TileName(c) in names
    {
      var dir := entries.value;
      var rest := dir.Keys;
      names, cs := [], [];
      while rest != {}
        invariant rest <= dir.Keys && |cs| == |names|
        invariant forall c :: c in dir ==> (c in rest <==> c !in cs)
        invariant forall k :: 0 <= k < |cs| ==> cs[k] in dir && names[k] == TileName(cs[k])
        invariant Distinct(cs)
        decreases rest
      {
        var c :| c in rest;
        names, cs := names + [TileName(c)], cs + [c];
        rest := rest - {c};
      }
      NamesReadBack(dir, names, cs);
    }

    /** `shutil.rmtree`: the directory and its files are gone. */
    method Remove()
      modifies this
      ensures entries == None
    {
      entries := None;
    }
  }
}
