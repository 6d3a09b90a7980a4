/** Tile identity and its on-disk cache location (`tile_path`): a tile is
    stored under `base/z/x/y.ext`, built with POSIX `os.path.join`. */
module TileAddress {
  import opened Results
  import opened Decimal

  /** A slippy-map tile, fields in the order of `mercantile.Tile`. The source
      never checks `0 <= x, y < 2^z`, so any ints are admitted. */
  datatype Tile = Tile(x: int, y: int, z: int)

  /** The three cache kinds under the tile directory and their extensions. */
  datatype Kind = Strava | Osm | Offroad

  function KindDir(k: Kind): string {
    match k
    case Strava => "strava"
    case Osm => "osm"
    case Offroad => "offroad"
  }

  function KindExt(k: Kind): string {
    match k
    case Strava => "png"
    case Osm => "json"
    case Offroad => "png"
  }

  /** What `os.path.join(a, b)` puts in front of a relative `b`. */
  function DirPrefix(a: string): string {
    if a == [] || a[|a| - 1] == '/' then a else a + "/"
  }

  /** POSIX `os.path.join(a, b)`: an absolute `b` discards `a`; otherwise one
      separator is inserted unless `a` is empty or already ends in one. */
  function Join(a: string, b: string): string {
    if |b| > 0 && b[0] == '/' then b else DirPrefix(a) + b
  }

  /** The part of a tile path after the base: `z/x/y.ext`. */
  function TileTail(t: Tile, ext: string): string {
    IntToString(t.z) + "/" + IntToString(t.x) + "/" + IntToString(t.y) + "." + ext
  }

  /** `tile_path(base, tile, ext)`. */
  function TilePath(base: string, t: Tile, ext: string): (p: string)
    ensures p == DirPrefix(base) + TileTail(t, ext)
  {
    Join(Join(Join(base, IntToString(t.z)), IntToString(t.x)), IntToString(t.y) + "." + ext)
  }

  /** The cache path of one kind of entry for a tile, `tile_path(join(tiledir, kind), tile, ext)`. */
  function CachePath(tiledir: string, k: Kind, t: Tile): string {
    TilePath(Join(tiledir, KindDir(k)), t, KindExt(k))
  }

  /** Position of the first `c` in `s`, or `|s|` when there is none. */
  function IndexOf(s: string, c: char): (k: nat)
    ensures k <= |s|
    ensures k < |s| ==> s[k] == c
    ensures forall i :: 0 <= i < k ==> s[i] != c
  {
    if s == [] then 0 else if s[0] == c then 0 else 1 + IndexOf(s[1..], c)
  }

  /** Splits `s` at its first `c`, if any. */
  function SplitAt(s: string, c: char): (r: Option<(string, string)>)
    ensures r.Some? ==> s == r.value.0 + [c] + r.value.1 && c !in r.value.0
    ensures r.None? ==> c !in s
  {
    var k := IndexOf(s, c);
    if k == |s| then None
    else
      assert s == s[..k] + [c] + s[k + 1..];
      Some((s[..k], s[k + 1..]))
  }

  lemma SplitAtConcat(a: string, c: char, b: string)
    requires c !in a
    ensures SplitAt(a + [c] + b, c) == Some((a, b))
  {
    var s := a + [c] + b;
    assert s[|a|] == c;
    assert IndexOf(s, c) == |a|;
    assert s[..|a|] == a;
    assert s[|a| + 1..] == b;
  }

  /** Recovers the tile from the part of a path after the base. */
  function ParseTileTail(ext: string, s: string): Option<Tile> {
    match SplitAt(s, '/')
    case None => None
    case Some((zs, r1)) =>
      match SplitAt(r1, '/')
      case None => None
      case Some((xs, r2)) =>
        match SplitAt(r2, '.')
        case None => None
        case Some((ys, e)) =>
          if e != ext then None
          else
            match (ParseInt(zs), ParseInt(xs), ParseInt(ys))
            case (Some(z), Some(x), Some(y)) => Some(Tile(x, y, z))
            case _ => None
  }

  /** Recovers the tile from a path under `base` with extension `ext`. */
  function ParseTilePath(base: string, ext: string, p: string): Option<Tile> {
    var pre := DirPrefix(base);
    if |p| < |pre| || p[..|pre|] != pre then None else ParseTileTail(ext, p[|pre|..])
  }

  lemma NumeralHasNo(i: int, c: char)
    requires !NumeralChar(c)
    ensures c !in IntToString(i)
  {
  }

  lemma ParseTileTailOfTail(t: Tile, ext: string)
    ensures ParseTileTail(ext, TileTail(t, ext)) == Some(t)
  {
    var zs, xs, ys := IntToString(t.z), IntToString(t.x), IntToString(t.y);
    NumeralHasNo(t.z, '/');
    NumeralHasNo(t.x, '/');
    NumeralHasNo(t.y, '.');
    var r2 := ys + "." + ext;
    var r1 := xs + "/" + r2;
    assert TileTail(t, ext) == zs + ['/'] + r1;
    SplitAtConcat(zs, '/', r1);
    assert r1 == xs + ['/'] + r2;
    SplitAtConcat(xs, '/', r2);
    assert r2 == ys + ['.'] + ext;
    SplitAtConcat(ys, '.', ext);
    IntRoundTrip(t.z);
    IntRoundTrip(t.x);
    IntRoundTrip(t.y);
  }

  lemma TailOfParseTileTail(ext: string, s: string, t: Tile)
    requires ParseTileTail(ext, s) == Some(t)
    ensures s == TileTail(t, ext)
  {
    var Some((zs, r1)) := SplitAt(s, '/');
    var Some((xs, r2)) := SplitAt(r1, '/');
    var Some((ys, e)) := SplitAt(r2, '.');
    assert e == ext;
    var z, x, y := ParseInt(zs), ParseInt(xs), ParseInt(ys);
    assert z == Some(t.z) && x == Some(t.x) && y == Some(t.y);
    NumeralsOfTail(zs, xs, ys, ext, t);
  }

  lemma NumeralsOfTail(zs: string, xs: string, ys: string, ext: string, t: Tile)
    requires ParseInt(zs) == Some(t.z) && ParseInt(xs) == Some(t.x) && ParseInt(ys) == Some(t.y)
    ensures zs + ['/'] + (xs + ['/'] + (ys + ['.'] + ext)) == TileTail(t, ext)
  {
    assert zs == IntToString(t.z) && xs == IntToString(t.x) && ys == IntToString(t.y);
  }

  /** The parser accepts exactly the tile paths: parsing `p` gives back `t`
      if and only if `p` is the path of `t`. */
  lemma ParseTilePathCorrect(base: string, ext: string, p: string, t: Tile)
    ensures ParseTilePath(base, ext, p) == Some(t) <==> p == TilePath(base, t, ext)
  {
    var pre := DirPrefix(base);
    if p == TilePath(base, t, ext) {
      assert p[..|pre|] == pre;
      assert p[|pre|..] == TileTail(t, ext);
      ParseTileTailOfTail(t, ext);
    }
    if ParseTilePath(base, ext, p) == Some(t) {
      assert p == pre + p[|pre|..];
      TailOfParseTileTail(ext, p[|pre|..], t);
    }
  }

  /** For a fixed base and extension, distinct tiles get distinct paths. */
  lemma TilePathInjective(base: string, ext: string, t1: Tile, t2: Tile)
    ensures TilePath(base, t1, ext) == TilePath(base, t2, ext) <==> t1 == t2
  {
    if TilePath(base, t1, ext) == TilePath(base, t2, ext) {
      ParseTilePathCorrect(base, ext, TilePath(base, t1, ext), t1);
      ParseTilePathCorrect(base, ext, TilePath(base, t1, ext), t2);
    }
  }

  lemma CachePathShape(tiledir: string, k: Kind, t: Tile)
    ensures CachePath(tiledir, k, t) == DirPrefix(tiledir) + (KindDir(k) + "/" + TileTail(t, KindExt(k)))
  {
  }

  lemma KindDirsDiffer(k1: Kind, k2: Kind)
    requires k1 != k2
    ensures |KindDir(k1)| >= 2 && |KindDir(k2)| >= 2
    ensures KindDir(k1)[0] != KindDir(k2)[0] || KindDir(k1)[1] != KindDir(k2)[1]
  {
    assert "strava"[0] == 's' && "osm"[0] == 'o' && "offroad"[0] == 'o';
    assert "osm"[1] == 's' && "offroad"[1] == 'f';
  }

  /** Cache entries never collide: distinct (kind, tile) pairs under one
      tile directory have distinct paths. */
  lemma CachePathsDistinct(tiledir: string, k1: Kind, t1: Tile, k2: Kind, t2: Tile)
    ensures CachePath(tiledir, k1, t1) == CachePath(tiledir, k2, t2) <==> k1 == k2 && t1 == t2
  {
    var d := DirPrefix(tiledir);
    var s1 := KindDir(k1) + "/" + TileTail(t1, KindExt(k1));
    var s2 := KindDir(k2) + "/" + TileTail(t2, KindExt(k2));
    CachePathShape(tiledir, k1, t1);
    CachePathShape(tiledir, k2, t2);
    if k1 != k2 {
      KindDirsDiffer(k1, k2);
      assert s1[0] == KindDir(k1)[0] && s1[1] == KindDir(k1)[1];
      assert s2[0] == KindDir(k2)[0] && s2[1] == KindDir(k2)[1];
      assert (d + s1)[|d|] == s1[0] && (d + s1)[|d| + 1] == s1[1];
      assert (d + s2)[|d|] == s2[0] && (d + s2)[|d| + 1] == s2[1];
    } else if CachePath(tiledir, k1, t1) == CachePath(tiledir, k2, t2) {
      TilePathInjective(Join(tiledir, KindDir(k1)), KindExt(k1), t1, t2);
    }
  }
}
