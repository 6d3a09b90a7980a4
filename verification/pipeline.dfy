/** The tile pipeline: `render_offroad_tile` composites one output tile from
    the cached heatmap and the rendered roads, `make_tile` caches both inputs
    and then renders, and the `tiles` request handler serves the output file,
    building it first when it does not exist. */
module Pipeline {
  import opened Results
  import opened TileAddress
  import opened UrlTemplate
  import opened Raster
  import opened Cache

  /** What the pipeline runs against: the tile directory, and the outside
      services it calls. */
  datatype Env = Env(
    tiledir: Path,
    fetch: Url -> Response,                       // requests.get
    render: Tile -> seq<seq<Rgba8>>,              // mapnik's road layer over mercantile.bounds(tile)
    decode: Bytes -> Option<seq<seq<Pixel>>>,     // matplotlib image.imread of a PNG file
    encode: seq<seq<Pixel>> -> Bytes)             // matplotlib image.imsave to PNG

  /** Exceptions that abort a build. */
  datatype Error =
    | MissingFile(path: Path)
    | Undecodable(path: Path)
    | RasterFailed(reason: RasterError)

  /** A result, the disk afterwards (side effects persist on failure), and
      the URLs requested, in order. */
  datatype Run<T> = Run(result: Result<T, Error>, disk: Disk, requests: seq<Url>)

  function HeatmapPath(env: Env, t: Tile): Path {
    CachePath(env.tiledir, Strava, t)
  }

  function RoadsPath(env: Env, t: Tile): Path {
    CachePath(env.tiledir, Osm, t)
  }

  function OutputPath(env: Env, t: Tile): Path {
    CachePath(env.tiledir, Offroad, t)
  }

  /** The heatmap file of `t` is on `disk`, decodes, and matches the road
      raster's shape: exactly when a render succeeds. */
  predicate Renderable(env: Env, disk: Disk, t: Tile) {
    var hp := HeatmapPath(env, t);
    hp in disk && env.decode(disk[hp]).Some? && SameShape(env.decode(disk[hp]).value, env.render(t))
  }

  /** The bytes a successful render stores for `t`. */
  function OutputBytes(env: Env, disk: Disk, t: Tile): Bytes
    requires Renderable(env, disk, t)
  {
    env.encode(OffroadImage(env.decode(disk[HeatmapPath(env, t)]).value, env.render(t)))
  }

  /** `render_offroad_tile(tile)`. The road file's path is passed to
      `vecttile_mask` but never read: the mask comes from the renderer alone.
      The output is written whether or not it already exists. */
  function RenderOffroadTile(env: Env, disk: Disk, t: Tile): (r: Run<Path>)
    ensures r.requests == []
    ensures r.result.Ok? <==> Renderable(env, disk, t)
    ensures r.result.Ok? ==> r.result.value == OutputPath(env, t)
                             && r.disk == disk[OutputPath(env, t) := OutputBytes(env, disk, t)]
    ensures r.result.Err? ==> r.disk == disk
  {
    var mask := VecttileMask(env.render(t));
    var hp := HeatmapPath(env, t);
    if hp !in disk then Run(Err(MissingFile(hp)), disk, [])
    else
      match env.decode(disk[hp])
      case None => Run(Err(Undecodable(hp)), disk, [])
      case Some(heat) =>
        MaskedHeatmap(heat, env.render(t));
        match AdjustAlpha(heat, mask)
        case Err(e) => Run(Err(RasterFailed(e)), disk, [])
        case Ok(img) =>
          var out := OutputPath(env, t);
          Run(Ok(out), disk[out := env.encode(img)], [])
  }

  /** The disk after `make_tile`'s first save, the one of the heatmap tile. */
  function HeatmapAfterSave(env: Env, disk: Disk, t: Tile): Disk {
    SaveTile(disk, env.fetch, StravaPrefix + TileTail(t, "png"), HeatmapPath(env, t)).disk
  }

  /** What `make_tile`'s two saves do to the disk: only the heatmap and road
      paths can appear, existing files stay, and the road save leaves the
      heatmap file, and so whether and what the tile renders, untouched. */
  lemma InputSaves(env: Env, disk: Disk, t: Tile)
    ensures var hp, rp, out := HeatmapPath(env, t), RoadsPath(env, t), OutputPath(env, t);
            var s := SaveTile(disk, env.fetch, StravaPrefix + TileTail(t, "png"), hp);
            var v := SaveTile(s.disk, env.fetch, OsmPrefix + TileTail(t, "json"), rp);
            && s.requests + v.requests == (if hp in disk then [] else [StravaPrefix + TileTail(t, "png")])
                                          + (if rp in disk then [] else [OsmPrefix + TileTail(t, "json")])
            && (Renderable(env, v.disk, t) <==> Renderable(env, s.disk, t))
            && (Renderable(env, s.disk, t) ==> OutputBytes(env, v.disk, t) == OutputBytes(env, s.disk, t))
            && (forall p :: p in disk ==> p in v.disk && v.disk[p] == disk[p])
            && (forall p :: p in v.disk ==> p in disk || p == hp || p == rp)
            && (out in v.disk <==> out in disk)
  {
    var hp, rp, out := HeatmapPath(env, t), RoadsPath(env, t), OutputPath(env, t);
    CachePathsDistinct(env.tiledir, Strava, t, Osm, t);
    CachePathsDistinct(env.tiledir, Strava, t, Offroad, t);
    CachePathsDistinct(env.tiledir, Osm, t, Offroad, t);
    var s := SaveTile(disk, env.fetch, StravaPrefix + TileTail(t, "png"), hp);
    var v := SaveTile(s.disk, env.fetch, OsmPrefix + TileTail(t, "json"), rp);
    assert hp in v.disk <==> hp in s.disk;
    assert hp in s.disk ==> v.disk[hp] == s.disk[hp];
    assert forall p :: p in v.disk ==> p in s.disk || p == rp;
    assert forall p :: p in s.disk ==> p in disk || p == hp;
  }

  /** `make_tile(x, y, z)`: saves the heatmap and road tiles, ignoring what
      either save returns, then renders the output. */
  function MakeTile(env: Env, disk: Disk, x: int, y: int, z: int): (r: Run<Path>)
    ensures var t := Tile(x, y, z);
            var hp, rp := HeatmapPath(env, t), RoadsPath(env, t);
            && r.requests == (if hp in disk then [] else [StravaPrefix + TileTail(t, "png")])
                             + (if rp in disk then [] else [OsmPrefix + TileTail(t, "json")])
            && (r.result.Ok? <==> Renderable(env, HeatmapAfterSave(env, disk, t), t))
            && (r.result.Ok? ==> r.result.value == OutputPath(env, t) && OutputPath(env, t) in r.disk
                                 && r.disk[OutputPath(env, t)] == OutputBytes(env, HeatmapAfterSave(env, disk, t), t))
            && (forall p :: p in disk && p != OutputPath(env, t) ==> p in r.disk && r.disk[p] == disk[p])
            && (forall p :: p in r.disk ==> p in disk || p == hp || p == rp || p == OutputPath(env, t))
            && (OutputPath(env, t) !in disk && r.result.Err? ==> OutputPath(env, t) !in r.disk)
  {
    var t := Tile(x, y, z);
    StravaUrl(t);
    OsmUrl(t);
    var su := TileUrl(StravaTemplate, t).value;
    var vu := TileUrl(OsmTemplate, t).value;
    var hp, rp := HeatmapPath(env, t), RoadsPath(env, t);
    var s := SaveTile(disk, env.fetch, su, hp);
    var v := SaveTile(s.disk, env.fetch, vu, rp);
    InputSaves(env, disk, t);
    var r := RenderOffroadTile(env, v.disk, t);
    Run(r.result, r.disk, s.requests + v.requests)
  }

  /** The `tiles(x, y, z)` request handler: serves the output file's bytes,
      first building the tile with `make_tile` when the file does not exist. */
  function Tiles(env: Env, disk: Disk, x: int, y: int, z: int): (r: Run<Bytes>)
    ensures var out := OutputPath(env, Tile(x, y, z));
            && (out in disk ==> r == Run(Ok(disk[out]), disk, []))
            && (r.result.Ok? ==> out in r.disk && r.result.value == r.disk[out])
            && (r.result.Err? ==> out !in r.disk)
            && KeepsFiles(disk, r.disk)
  {
    var out := OutputPath(env, Tile(x, y, z));
    if out in disk then Run(Ok(disk[out]), disk, [])
    else
      var m := MakeTile(env, disk, x, y, z);
      match m.result
      case Err(e) => Run(Err(e), m.disk, m.requests)
      case Ok(p) =>
        if p in m.disk then Run(Ok(m.disk[p]), m.disk, m.requests)
        else Run(Err(MissingFile(p)), m.disk, m.requests)
  }

  /** A miss builds the composited tile: the bytes served are the encoded
      offroad image of the heatmap as it stands after the download, and the
      request fails exactly when that heatmap is missing, undecodable, or
      of a different shape than the road raster. */
  lemma TilesMissBuilds(env: Env, disk: Disk, x: int, y: int, z: int)
    requires OutputPath(env, Tile(x, y, z)) !in disk
    ensures var t := Tile(x, y, z);
            var d1 := HeatmapAfterSave(env, disk, t);
            var r := Tiles(env, disk, x, y, z);
            && (r.result.Ok? <==> Renderable(env, d1, t))
            && (r.result.Ok? ==> r.result.value == OutputBytes(env, d1, t))
  {
    var t := Tile(x, y, z);
    var m := MakeTile(env, disk, x, y, z);
    if m.result.Ok? {
      var hp, rp, out := HeatmapPath(env, t), RoadsPath(env, t), OutputPath(env, t);
      StravaUrl(t);
      OsmUrl(t);
      CachePathsDistinct(env.tiledir, Strava, t, Osm, t);
      var s := SaveTile(disk, env.fetch, TileUrl(StravaTemplate, t).value, hp);
      var v := SaveTile(s.disk, env.fetch, TileUrl(OsmTemplate, t).value, rp);
      assert hp in v.disk && v.disk[hp] == s.disk[hp];
      assert m.disk == RenderOffroadTile(env, v.disk, t).disk;
      assert m.disk[out] == OutputBytes(env, v.disk, t);
    }
  }

  /** A second request for a tile that was served is a cache hit: whatever
      the services would now do, nothing is requested or built, the disk is
      unchanged and the same bytes are served. */
  lemma SecondRequestHits(env: Env, env2: Env, disk: Disk, x: int, y: int, z: int)
    requires env2.tiledir == env.tiledir
    ensures var r1 := Tiles(env, disk, x, y, z);
            r1.result.Ok? ==> Tiles(env2, r1.disk, x, y, z) == Run(r1.result, r1.disk, [])
  {
  }

  /** No negative caching: when the heatmap download fails on a miss, the
      request fails, no heatmap or output file is left behind, and the next
      request for the tile downloads the heatmap again. */
  lemma FailedDownloadIsRetried(env: Env, env2: Env, disk: Disk, x: int, y: int, z: int)
    requires env2.tiledir == env.tiledir
    requires var t := Tile(x, y, z);
             && OutputPath(env, t) !in disk && HeatmapPath(env, t) !in disk
             && !Usable(env.fetch(StravaPrefix + TileTail(t, "png")))
    ensures var t := Tile(x, y, z);
            var r := Tiles(env, disk, x, y, z);
            && r.result.Err?
            && HeatmapPath(env, t) !in r.disk && OutputPath(env, t) !in r.disk
            && Tiles(env2, r.disk, x, y, z).requests[0] == StravaPrefix + TileTail(t, "png")
  {
    var t := Tile(x, y, z);
    var hp, rp, out := HeatmapPath(env, t), RoadsPath(env, t), OutputPath(env, t);
    StravaUrl(t);
    OsmUrl(t);
    CachePathsDistinct(env.tiledir, Strava, t, Osm, t);
    var s := SaveTile(disk, env.fetch, TileUrl(StravaTemplate, t).value, hp);
    var v := SaveTile(s.disk, env.fetch, TileUrl(OsmTemplate, t).value, rp);
    assert s.disk == disk;
    assert hp !in v.disk;
    var m := MakeTile(env, disk, x, y, z);
    assert !Renderable(env, v.disk, t);
    assert m.disk == v.disk;
    var r := Tiles(env, disk, x, y, z);
    assert r.disk == m.disk;
  }
}
