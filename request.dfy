/**
 * The query string of `Gallica.request`, without the transport: the
 * parameters `method`, `ark` and `l` (URL-encoded in insertion order) and
 * the region `r`, appended after them.
 */
module Request {
  import opened Wrappers
  import opened Text
  import opened Grid

  /** `"{0}.f{1}".format(id, page)`: the reference of one page of a document. */
  function Ark(id: string, page: nat): (ark: string)
    ensures |ark| == |id| + 2 + |NatToString(page)|
    ensures ark[..|id|] == id && ark[|id|..|id| + 2] == ".f"
    ensures ark[|id| + 2..] == NatToString(page)
  {
    id + ".f" + NatToString(page)
  }

  /** `"{0},{1},{2},{2}".format(x, y, SIZE_TILE)`: a square tile at (x, y). */
  function Region(x: nat, y: nat): string {
    NatToString(x) + "," + NatToString(y) + "," + NatToString(SizeTile) + "," + NatToString(SizeTile)
  }

  /** The parameters of one tile request, in the order they appear in the URL. */
  function Params(q: Query): (ps: seq<(string, string)>)
    ensures |ps| == 4
    ensures ps[0] == ("method", "R") && ps[2] == ("l", "7")
    ensures ps[1] == ("ark", q.ark) && ps[3].0 == "r"
    ensures Split(ps[3].1, ',') == [NatToString(q.x), NatToString(q.y), "2236", "2236"]
  {
    RegionFields(q.x, q.y);
    [("method", "R"), ("ark", q.ark), ("l", "7"), ("r", Region(q.x, q.y))]
  }

  lemma DigitsHaveNoComma(n: nat)
    ensures ',' !in NatToString(n)
  {
  }

  /** The size is written out as 2236. */
  lemma SizeTileString()
    ensures NatToString(SizeTile) == "2236"
  {
    assert NatToString(2) == "2";
    assert NatToString(22) == "22";
    assert NatToString(223) == "223";
  }

  /** Four comma-free fields joined by commas split back into those fields. */
  lemma SplitFour(a: string, b: string, c: string, d: string)
    requires ',' !in a && ',' !in b && ',' !in c && ',' !in d
    ensures Split(a + "," + b + "," + c + "," + d, ',') == [a, b, c, d]
  {
    var cd := c + [','] + d;
    var bcd := b + [','] + cd;
    assert Split(cd, ',') == [c, d] by {
      SplitCons(c, ',', d);
      SplitNoSep(d, ',');
    }
    assert Split(bcd, ',') == [b, c, d] by {
      SplitCons(b, ',', cd);
    }
    assert a + "," + b + "," + c + "," + d == a + [','] + bcd;
    SplitCons(a, ',', bcd);
  }

  /** The comma-separated fields of the region are x, y and twice the tile size 2236. */
  lemma RegionFields(x: nat, y: nat)
    ensures Split(Region(x, y), ',') == [NatToString(x), NatToString(y), "2236", "2236"]
  {
    DigitsHaveNoComma(x);
    DigitsHaveNoComma(y);
    DigitsHaveNoComma(SizeTile);
    SplitFour(NatToString(x), NatToString(y), NatToString(SizeTile), NatToString(SizeTile));
    SizeTileString();
  }

  /** The region reads back: its first two fields parse to x and y. */
  lemma RegionRoundTrip(x: nat, y: nat)
    ensures |Split(Region(x, y), ',')| == 4
    ensures ParseInt(Split(Region(x, y), ',')[0]) == Some(x)
    ensures ParseInt(Split(Region(x, y), ',')[1]) == Some(y)
  {
    RegionFields(x, y);
    ParseNatToString(x);
    ParseNatToString(y);
  }

  /**
   * Distinct tile requests have distinct parameters, so an answer that depends
   * on the parameters is a function of the (ark, x, y) triple.
   */
  lemma ParamsInjective(q: Query, r: Query)
    requires Params(q) == Params(r)
    ensures q == r
  {
    RegionRoundTrip(q.x, q.y);
    RegionRoundTrip(r.x, r.y);
    assert Region(q.x, q.y) == Params(q)[3].1 == Region(r.x, r.y);
  }

  /** Different pages of one document have different references. */
  lemma ArkInjective(id: string, p: nat, q: nat)
    requires Ark(id, p) == Ark(id, q)
    ensures p == q
  {
    NatToStringInjective(p, q);
  }

  /** The single-page script's fixed reference `id + ".f1"` is the page-1 reference. */
  lemma LegacyArkIsFirstPage(id: string)
    ensures id + ".f1" == Ark(id, 1)
  {
    assert NatToString(1) == "1";
  }
}
