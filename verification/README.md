# Offroad heatmap tiles, modelled in Dafny

`offroad_tiles.py` serves slippy-map tiles that show a cycling heatmap
everywhere except on roads. For a tile it downloads the heatmap PNG and the
road vector tile into a file cache, renders the road network over the tile's
bounds, turns the rendered alpha channel into a mask (1 = no road, 0 = road),
multiplies the mask into the heatmap's alpha channel and writes the result to
an output cache. The HTTP handler serves the output file, building it first
when it does not exist.

This project models that core as pure functions over immutable values:

- `Decimal` — Python's `str()` of an int, and its inverse.
- `TileAddress` — the tile triple, POSIX `os.path.join`, `tile_path`, the
  three cache kinds (`strava`/png, `osm`/json, `offroad`/png) and a parser
  for tile paths.
- `UrlTemplate` — `tile_url`, i.e. `str.format` with the keyword fields
  `z`, `x`, `y`, and the two source templates.
- `Raster` — the mask of `vecttile_mask` and the compositing of
  `adjust_alpha`, over exact reals, on `seq<seq<…>>` grids.
- `Cache` — the disk as `map<string, seq<bv8>>` and `save_tile`.
- `Pipeline` — `render_offroad_tile`, `make_tile` and the `tiles` handler.

The outside services are values of the `Pipeline.Env` record: `fetch`
stands for `requests.get`, `render` for the mapnik rendering of the road
layer over `mercantile.bounds(tile)`, `decode` for `image.imread` and
`encode` for `image.imsave`. Values are immutable, so the source's `heatmap.copy()` before compositing
needs no counterpart: the decoded heatmap is never changed. Every operation
returns the disk afterwards and
the list of URLs it requested, so "no fetch", "nothing else changes" and
"side effects persist on failure" are statements about results.

The model follows what the code does, including where it departs from the obvious design:

- Writes are plain file writes, not atomic: there is no write-then-rename.
- `make_tile` ignores what `save_tile` returns. When `requests.get` returns a
  response, a failed heatmap download (an error status or an empty body)
  surfaces only when rendering finds the heatmap file missing, and a failed
  road download never matters: `vecttile_mask` is passed the road file's
  path but renders from its own datasource and never reads the file. A
  request that raises (connection error, timeout) is not modelled; in the
  source it aborts `make_tile` at that save.
- `render_offroad_tile` writes the output without checking whether it exists;
  only the `tiles` handler checks.
- The new alpha is `alpha * mask`, not rounded; quantisation happens, if at
  all, inside the PNG encoder.
- Shapes are not validated explicitly; the model fails with
  `RasterFailed(DimensionMismatch)` whenever the heatmap and the mask differ
  in shape. numpy itself would broadcast a dimension of size 1 instead of
  raising; that case cannot arise in the source, because line 82 reshapes
  the rendered buffer to 256 x 256, but the model drops that reshape (see
  below), so it is exact only under the source's fixed render size.
- Tile coordinates are not range-checked (`0 <= x, y < 2^z` is never
  tested), so any ints are admitted, negative ones rendered with a '-'.

## Model

| member | source | states |
|---|---|---|
| Decimal.NatToString | offroad_tiles.py:14 | the decimal rendering of a natural is a non-empty digit string, with a leading '0' only for zero |
| Decimal.IntToString | offroad_tiles.py:14 | `str()` of an int is non-empty, uses only digits and '-', and starts with '-' exactly for negatives, so it never contains '/' or '.' |
| Decimal.IntRoundTrip | offroad_tiles.py:14 | reading the rendering of any int back gives that int |
| Decimal.IntToStringInjective | offroad_tiles.py:14 | two ints have the same rendering if and only if they are equal |
| TileAddress.TilePath | offroad_tiles.py:13-14 | the joined path is exactly the base (with a separator added unless empty or already ending in '/') followed by `z/x/y.ext`: no segment ever resets the join |
| TileAddress.ParseTilePathCorrect | offroad_tiles.py:13-14 | a path parses to tile t if and only if it is the path of t under that base and extension |
| TileAddress.TilePathInjective | offroad_tiles.py:13-14 | for a fixed base and extension, two tiles get the same path if and only if they are the same tile |
| TileAddress.CachePathsDistinct | offroad_tiles.py:112-117 | under one tile directory the heatmap, road and output paths of all tiles are pairwise distinct: equal paths mean the same kind and the same tile |
| UrlTemplate.TileUrl | offroad_tiles.py:9-10 | formatting fails only on a template that contains a brace: text without `{` or `}` always formats |
| UrlTemplate.FormatEncoded | offroad_tiles.py:9-10 | any template made of literal characters (braces doubled) and `{z}`/`{x}`/`{y}` fields formats successfully, each field replaced by the decimal coordinate and every literal kept |
| UrlTemplate.FormatOnlyEncoded | offroad_tiles.py:9-10 | conversely, a template that formats is the text of some sequence of literal characters and `{z}`/`{x}`/`{y}` fields, and its result is that sequence's expansion |
| UrlTemplate.FormatAcceptsExactlyEncodings | offroad_tiles.py:9-10 | for every tile, a template formats if and only if it is built from literal characters (braces doubled) and `{z}`/`{x}`/`{y}` fields; every other template raises |
| UrlTemplate.FormatBraceFree | offroad_tiles.py:9-10 | text without braces formats to itself |
| UrlTemplate.FormatConcat | offroad_tiles.py:9-10 | a template that formats cleanly can be followed by any text, and the result is the two expansions concatenated (or the second one's error) |
| UrlTemplate.StravaUrl | offroad_tiles.py:36 | the heatmap template formats for every tile, to its fixed prefix followed by `z/x/y.png` |
| UrlTemplate.OsmUrl | offroad_tiles.py:37 | the road template formats for every tile, to its fixed prefix followed by `z/x/y.json` |
| Raster.MaskValue | offroad_tiles.py:85-90 | one pixel's mask weight lies in [0, 1], is 0 exactly for alpha 255 (road), 1 exactly for alpha 0 (no road), and gives the alpha back as 255 * (1 - weight) |
| Raster.VecttileMask | offroad_tiles.py:85-90 | the mask has the raster's shape, every weight is in [0, 1], is 0 exactly where the road alpha is 255 and 1 exactly where it is 0, and the road alpha is recoverable from it |
| Raster.AdjustAlpha | offroad_tiles.py:104-107 | succeeds exactly when heatmap and mask have the same shape; then every pixel keeps its R, G, B and its alpha becomes old alpha times mask weight |
| Raster.AdjustAlphaOnlyFades | offroad_tiles.py:104-107 | with a mask in [0, 1] each new alpha lies between 0 and the old alpha, so an alpha channel in [0, 1] stays in [0, 1] |
| Raster.MaskedHeatmap | offroad_tiles.py:111-116 | masking then adjusting fails exactly on a shape mismatch and otherwise equals the offroad image defined pixel by pixel; fully opaque road pixels become transparent and pixels with no road are unchanged |
| Cache.SaveTile | offroad_tiles.py:23-34 | an existing file gives the "already cached" outcome with no request and no change; otherwise the URL is requested once, and the file is written with exactly the body and "saved" returned if and only if the response is ok and non-empty, else nothing is written and "not saved" returned; existing files are never changed and no other path is created |
| Cache.RetryAfterFailure | offroad_tiles.py:28-34 | after "not saved" the next call for the same file requests the URL again and stores a good response |
| Cache.SavedIsFinal | offroad_tiles.py:24-31 | after "saved" any later call for the same file requests nothing, changes nothing and the first body stays |
| Pipeline.RenderOffroadTile | offroad_tiles.py:110-120 | requests nothing; succeeds exactly when the heatmap file exists, decodes and matches the road raster's shape; on success returns the output path and overwrites only that path, with the encoded offroad image; on failure leaves the disk unchanged |
| Pipeline.MakeTile | offroad_tiles.py:133-143 | requests the heatmap URL exactly when its file is absent and then the road URL exactly when its file is absent; (when every request returns a response) succeeds exactly when the heatmap as it stands after its download is renderable, whatever the road response was; on success it returns the output path and the output file holds the encoded offroad image of that heatmap and the rendered roads; no file other than the output changes, and the only files that can appear are the heatmap, the road file and the output; a failed build leaves no output file behind |
| Pipeline.Tiles | offroad_tiles.py:151-162 | an existing output file is served as is, with no request and no change; a served response is the output file's bytes; a failed request leaves no output file; no existing file is ever changed |
| Pipeline.TilesMissBuilds | offroad_tiles.py:156-160 | on a miss the request succeeds exactly when the downloaded heatmap is renderable, and serves the encoded offroad image of that heatmap and the rendered roads |
| Pipeline.SecondRequestHits | offroad_tiles.py:156-160 | after a served request, a second request for the same tile, whatever the services now do, is a cache hit: same bytes, no request, disk unchanged |
| Pipeline.FailedDownloadIsRetried | offroad_tiles.py:137-143 | when the heatmap download fails on a miss the request fails, neither the heatmap nor the output file is left behind, and the next request downloads the heatmap again |

## Left out

- HTTP downloads (`requests.get`) are the `fetch` parameter; a request that raises instead of returning a response is not modelled.
- Pipeline.MakeTile: its contract assumes `requests.get` returns a response; a heatmap request that raises (line 139 via line 27) ends `make_tile` before the road save, and a road request that raises (line 140) ends it before rendering, in both cases with the exception rather than a result.
- Mapnik (map, style, PostGIS datasource and rendering, lines 49-67 and 73-80) and `mercantile.bounds`/`mercantile.xy` are folded into the `render` parameter, a function from tile to RGBA8 grid; the 256 x 256 size of the source's map is not imposed on it, and a differently sized raster shows up as `RasterFailed(DimensionMismatch)`.
- The numpy reshape of the renderer's byte buffer (line 82) is left out: the renderer hands over the pixel grid directly.
- PNG decoding and encoding (`image.imread`, `image.imsave`) are the `decode` and `encode` parameters; a file that does not decode is `Undecodable`.
- `prep_dirs` and directories in general: the disk holds files only, so creating directories changes nothing and `os.path.exists` sees files only.
- Failing writes and reads (unwritable medium), atomicity and concurrent requests: the source has no atomicity either.
- Flask routing, `int()` parsing of the URL segments, the response object and its mimetype (lines 146-165): `Tiles` takes the three ints and returns the bytes.
- The seeding loops and `test()` (lines 41-46, 93-96, 123-130), which only iterate `mercantile.tiles`, and all printing.
- Floating point: channel values and mask weights are exact reals, so float32/float64 rounding is not modelled.
- UrlTemplate.TileUrl: format specifications, conversions and attribute or index fields (`{z:03d}`, `{z!r}`, `{z.real}`) are rejected although Python accepts some of them; the source's two templates use only bare `{z}`, `{x}`, `{y}`.
- Cache.SaveTile: the emptiness test `res.content != ''` is read as in Python 2, which the file targets (it imports `print_function`); under Python 3 bytes never equal `''` and an empty body would be written.
