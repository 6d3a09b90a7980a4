/** `tile_url(template, tile)`: `template.format(z=…, x=…, y=…)` for the
    three keyword fields a tile supplies. */
module UrlTemplate {
  import opened Results
  import opened Decimal
  import opened TileAddress

  /** The source's two input templates (heatmap PNG tiles and road vector
      tiles), written as fixed prefix plus placeholder tail. */
  const StravaPrefix := "http://" + "d2z9m7k9h4f0yp.cloudfront.net" + "/tiles/cycling/color1/"
  const StravaTemplate := StravaPrefix + "{z}/{x}/{y}.png"
  const OsmPrefix := "http://" + "tile.openstreetmap.us" + "/vectiles-highroad/"
  const OsmTemplate := OsmPrefix + "{z}/{x}/{y}.json"

  /** `str.format` raised: a stray brace (ValueError) or a replacement field
      other than `{z}`, `{x}`, `{y}` (KeyError, IndexError). */
  datatype FormatError = BadTemplate

  datatype Axis = Z | X | Y

  function Coord(t: Tile, a: Axis): int {
    match a
    case Z => t.z
    case X => t.x
    case Y => t.y
  }

  function AxisName(a: Axis): char {
    match a
    case Z => 'z'
    case X => 'x'
    case Y => 'y'
  }

  function AxisOf(c: char): Option<Axis> {
    if c == 'z' then Some(Z) else if c == 'x' then Some(X) else if c == 'y' then Some(Y) else None
  }

  function Prepend(pre: string, r: Result<string, FormatError>): Result<string, FormatError> {
    match r
    case Ok(s) => Ok(pre + s)
    case Err(e) => Err(e)
  }

  /** `tile_url(s, t)`, that is `s.format(z=t.z, x=t.x, y=t.y)`. It reads `s`
      left to right: `{{` and `}}` stand for single braces,
      `{z}`, `{x}`, `{y}` for the tile's decimal coordinates, and every other
      character for itself. */
  function TileUrl(s: string, t: Tile): (r: Result<string, FormatError>)
    ensures r.Err? ==> '{' in s || '}' in s
    decreases |s|
  {
    if s == [] then Ok([])
    else if s[0] == '{' then
      if |s| >= 2 && s[1] == '{' then Prepend("{", TileUrl(s[2..], t))
      else if |s| >= 3 && AxisOf(s[1]).Some? && s[2] == '}' then
        Prepend(IntToString(Coord(t, AxisOf(s[1]).value)), TileUrl(s[3..], t))
      else Err(BadTemplate)
    else if s[0] == '}' then
      if |s| >= 2 && s[1] == '}' then Prepend("}", TileUrl(s[2..], t)) else Err(BadTemplate)
    else Prepend([s[0]], TileUrl(s[1..], t))
  }

  /** A template read as a sequence of literal characters and coordinate fields. */
  datatype Piece = Text(c: char) | Field(axis: Axis)

  /** The template text that denotes a piece. */
  function EncodePiece(p: Piece): string {
    match p
    case Text(c) => if c == '{' then "{{" else if c == '}' then "}}" else [c]
    case Field(a) => ['{', AxisName(a), '}']
  }

  function Encode(ps: seq<Piece>): string {
    if ps == [] then [] else EncodePiece(ps[0]) + Encode(ps[1..])
  }

  /** What a template of pieces must format to: literal characters kept,
      each field replaced by the coordinate's decimal rendering. */
  function Expand(ps: seq<Piece>, t: Tile): string {
    if ps == [] then [] else PieceText(ps[0], t) + Expand(ps[1..], t)
  }

  function PieceText(p: Piece, t: Tile): string {
    match p
    case Text(c) => [c]
    case Field(a) => IntToString(Coord(t, a))
  }

  lemma FormatPiece(p: Piece, rest: string, t: Tile)
    ensures TileUrl(EncodePiece(p) + rest, t) == Prepend(PieceText(p, t), TileUrl(rest, t))
  {
    var s := EncodePiece(p) + rest;
    match p
    case Text(c) =>
      if c == '{' || c == '}' {
        assert s[2..] == rest;
      } else {
        assert s[1..] == rest;
      }
    case Field(a) =>
      assert AxisOf(s[1]) == Some(a);
      assert s[3..] == rest;
  }

  /** Formatting a template built from pieces replaces each field by its
      coordinate and leaves every literal character unchanged. */
  lemma {:induction false} FormatEncoded(ps: seq<Piece>, t: Tile)
    ensures TileUrl(Encode(ps), t) == Ok(Expand(ps, t))
    decreases |ps|
  {
    if ps != [] {
      FormatEncoded(ps[1..], t);
      FormatPiece(ps[0], Encode(ps[1..]), t);
    }
  }

  /** A template that formats cleanly starts with the text of one piece,
      and formats to that piece's text followed by the rest's result. */
  lemma FirstPiece(s: string, t: Tile) returns (p: Piece, n: nat)
    requires s != [] && TileUrl(s, t).Ok?
    ensures 0 < n <= |s| && s[..n] == EncodePiece(p)
    ensures TileUrl(s, t) == Prepend(PieceText(p, t), TileUrl(s[n..], t))
  {
    if s[0] == '{' {
      if |s| >= 2 && s[1] == '{' {
        p, n := Text('{'), 2;
      } else {
        p, n := Field(AxisOf(s[1]).value), 3;
      }
    } else if s[0] == '}' {
      p, n := Text('}'), 2;
    } else {
      p, n := Text(s[0]), 1;
    }
  }

  /** The converse: a template formats cleanly only when it is the text of
      some sequence of pieces, and then its result is that sequence's
      expansion. Every other template raises. */
  lemma {:induction false} FormatOnlyEncoded(s: string, t: Tile)
    ensures TileUrl(s, t).Ok? ==> exists ps :: Encode(ps) == s && TileUrl(s, t).value == Expand(ps, t)
    decreases |s|
  {
    if s == [] {
      assert Encode([]) == s && TileUrl(s, t).value == Expand([], t);
    } else if TileUrl(s, t).Ok? {
      var p, n := FirstPiece(s, t);
      FormatOnlyEncoded(s[n..], t);
      var rest :| Encode(rest) == s[n..] && TileUrl(s[n..], t).value == Expand(rest, t);
      var ps := [p] + rest;
      assert ps[1..] == rest;
      assert s == s[..n] + s[n..];
      assert Encode(ps) == s;
    }
  }

  /** Both directions together: a template is accepted exactly when it is
      the text of a sequence of pieces, whatever the tile. */
  lemma FormatAcceptsExactlyEncodings(s: string, t: Tile)
    ensures TileUrl(s, t).Ok? <==> exists ps :: Encode(ps) == s
  {
    FormatOnlyEncoded(s, t);
    if exists ps :: Encode(ps) == s {
      var ps :| Encode(ps) == s;
      FormatEncoded(ps, t);
    }
  }

  predicate BraceFree(s: string) {
    '{' !in s && '}' !in s
  }

  /** Text without braces is copied through unchanged. */
  lemma {:induction false} FormatBraceFree(s: string, t: Tile)
    requires BraceFree(s)
    ensures TileUrl(s, t) == Ok(s)
    decreases |s|
  {
    if s != [] {
      FormatBraceFree(s[1..], t);
      assert s == [s[0]] + s[1..];
    }
  }

  lemma PrependPrepend(p: string, q: string, r: Result<string, FormatError>)
    ensures Prepend(p, Prepend(q, r)) == Prepend(p + q, r)
  {
    if r.Ok? {
      assert p + (q + r.value) == (p + q) + r.value;
    }
  }

  /** A template that formats cleanly can be followed by any text: the
      result is its own expansion followed by the other text's. */
  lemma {:induction false} FormatConcat(a: string, b: string, t: Tile)
    requires TileUrl(a, t).Ok?
    ensures TileUrl(a + b, t) == Prepend(TileUrl(a, t).value, TileUrl(b, t))
    decreases |a|
  {
    if a != [] {
      var s := a + b;
      var n: nat;
      var pre: string;
      if a[0] == '{' {
        if a[1] == '{' {
          n, pre := 2, "{";
        } else {
          n, pre := 3, IntToString(Coord(t, AxisOf(a[1]).value));
        }
      } else if a[0] == '}' {
        n, pre := 2, "}";
      } else {
        n, pre := 1, [a[0]];
      }
      assert s[n..] == a[n..] + b;
      assert TileUrl(a, t) == Prepend(pre, TileUrl(a[n..], t));
      assert TileUrl(s, t) == Prepend(pre, TileUrl(a[n..] + b, t));
      assert TileUrl(a[n..], t).Ok?;
      assert TileUrl(a, t).value == pre + TileUrl(a[n..], t).value;
      FormatConcat(a[n..], b, t);
      PrependPrepend(pre, TileUrl(a[n..], t).value, TileUrl(b, t));
    } else {
      assert a + b == b;
      if TileUrl(b, t).Ok? {
        assert [] + TileUrl(b, t).value == TileUrl(b, t).value;
      }
    }
  }

  /** The last part of the common tail, `/{y}.ext`. */
  lemma FormatYTail(ext: string, t: Tile)
    requires BraceFree(ext)
    ensures TileUrl("/" + (EncodePiece(Field(Y)) + ("." + ext)), t)
            == Ok("/" + (IntToString(t.y) + ("." + ext)))
  {
    var r5 := "." + ext;
    var r4 := EncodePiece(Field(Y)) + r5;
    FormatBraceFree(ext, t);
    FormatPiece(Text('.'), ext, t);
    assert TileUrl(r5, t) == Ok("." + ext);
    FormatPiece(Field(Y), r5, t);
    assert TileUrl(r4, t) == Ok(IntToString(t.y) + ("." + ext));
    FormatPiece(Text('/'), r4, t);
  }

  /** The tail `{z}/{x}/{y}.ext` shared by both source templates, built
      from its pieces. */
  function TailTemplate(ext: string): string {
    EncodePiece(Field(Z)) + ("/" + (EncodePiece(Field(X)) + ("/" + (EncodePiece(Field(Y)) + ("." + ext)))))
  }

  lemma TailTemplateText(ext: string)
    ensures "{z}/{x}/{y}." + ext == TailTemplate(ext)
  {
    var z, x, y := EncodePiece(Field(Z)), EncodePiece(Field(X)), EncodePiece(Field(Y));
    assert "{z}/{x}/{y}." == z + "/" + x + "/" + y + ".";
  }

  /** The part of the common tail after the `z` field, `/{x}/{y}.ext`. */
  lemma FormatXYTail(ext: string, t: Tile)
    requires BraceFree(ext)
    ensures TileUrl("/" + (EncodePiece(Field(X)) + ("/" + (EncodePiece(Field(Y)) + ("." + ext)))), t)
            == Ok("/" + (IntToString(t.x) + ("/" + (IntToString(t.y) + ("." + ext)))))
  {
    var r3 := "/" + (EncodePiece(Field(Y)) + ("." + ext));
    var r2 := EncodePiece(Field(X)) + r3;
    FormatYTail(ext, t);
    FormatPiece(Field(X), r3, t);
    assert TileUrl(r2, t) == Ok(IntToString(t.x) + ("/" + (IntToString(t.y) + ("." + ext))));
    FormatPiece(Text('/'), r2, t);
  }

  /** The common tail of both source templates formats to the tile's
      `z/x/y.ext`, the same text that ends its cache path. */
  lemma FormatTailTemplate(ext: string, t: Tile)
    requires BraceFree(ext)
    ensures TileUrl(TailTemplate(ext), t) == Ok(TileTail(t, ext))
  {
    var r1 := "/" + (EncodePiece(Field(X)) + ("/" + (EncodePiece(Field(Y)) + ("." + ext))));
    FormatXYTail(ext, t);
    FormatPiece(Field(Z), r1, t);
    TileTailParts(t, ext);
  }

  lemma TileTailParts(t: Tile, ext: string)
    ensures TileTail(t, ext)
            == IntToString(t.z) + ("/" + (IntToString(t.x) + ("/" + (IntToString(t.y) + ("." + ext)))))
  {
  }

  lemma PrefixesBraceFree()
    ensures BraceFree(StravaPrefix) && BraceFree(OsmPrefix)
  {
    assert BraceFree("http://");
    assert BraceFree("d2z9m7k9h4f0yp.cloudfront.net");
    assert BraceFree("/tiles/cycling/color1/");
    assert BraceFree("tile.openstreetmap.us");
    assert BraceFree("/vectiles-highroad/");
  }

  /** The heatmap URL of every tile is well formed: the fixed host and
      directory, then `z/x/y.png`. */
  lemma StravaUrl(t: Tile)
    ensures TileUrl(StravaTemplate, t) == Ok(StravaPrefix + TileTail(t, "png"))
  {
    assert "{z}/{x}/{y}.png" == "{z}/{x}/{y}." + "png";
    PrefixesBraceFree();
    FormatBraceFree(StravaPrefix, t);
    FormatTailTemplate("png", t);
    TailTemplateText("png");
    FormatConcat(StravaPrefix, "{z}/{x}/{y}." + "png", t);
  }

  /** The road-vector URL of every tile: fixed host and directory, then `z/x/y.json`. */
  lemma OsmUrl(t: Tile)
    ensures TileUrl(OsmTemplate, t) == Ok(OsmPrefix + TileTail(t, "json"))
  {
    assert "{z}/{x}/{y}.json" == "{z}/{x}/{y}." + "json";
    PrefixesBraceFree();
    FormatBraceFree(OsmPrefix, t);
    FormatTailTemplate("json", t);
    TailTemplateText("json");
    FormatConcat(OsmPrefix, "{z}/{x}/{y}." + "json", t);
  }
}
