/** The file cache of raw input tiles (`save_tile`). The disk is a map from
    file path to contents, and `os.path.exists` is membership in it. */
module Cache {

  type Path = string
  type Url = string
  type Bytes = seq<bv8>
  type Disk = map<Path, Bytes>

  /** What an HTTP GET hands back: whether the status was a success, and the body. */
  datatype Response = Response(ok: bool, content: Bytes)

  /** The three returns of `save_tile`: `None` when the file already exists,
      `True` when it was downloaded and written, `False` when the download
      failed or was empty. */
  datatype SaveOutcome = AlreadyCached | Saved | NotSaved

  /** The outcome, the disk afterwards, and the URLs requested, in order. */
  datatype SaveStep = SaveStep(outcome: SaveOutcome, disk: Disk, requests: seq<Url>)

  /** Files already on `d` are still on `d'` with the same contents. */
  predicate KeepsFiles(d: Disk, d': Disk) {
    forall p :: p in d ==> p in d' && d'[p] == d[p]
  }

  /** A response worth caching: success status and a non-empty body. */
  predicate Usable(res: Response) {
    res.ok && |res.content| > 0
  }

  /** `save_tile(url, path)` with `fetch` standing for `requests.get`.
      Creating the parent directory (`prep_dirs`) leaves the file map unchanged. */
  function SaveTile(disk: Disk, fetch: Url -> Response, url: Url, path: Path): (s: SaveStep)
    ensures s.outcome == AlreadyCached <==> path in disk
    ensures s.outcome == AlreadyCached ==> s.disk == disk && s.requests == []
    ensures path !in disk ==> s.requests == [url]
    ensures s.outcome == Saved <==> path !in disk && Usable(fetch(url))
    ensures s.outcome == Saved ==> path in s.disk && s.disk[path] == fetch(url).content
    ensures s.outcome == NotSaved ==> s.disk == disk && path !in s.disk
    ensures KeepsFiles(disk, s.disk)
    ensures forall p :: p in s.disk && p != path ==> p in disk
    ensures path in s.disk ==> |s.disk[path]| > 0 || path in disk
  {
    if path in disk then SaveStep(AlreadyCached, disk, [])
    else
      var res := fetch(url);
      if Usable(res) then SaveStep(Saved, disk[path := res.content], [url])
      else SaveStep(NotSaved, disk, [url])
  }

  /** No negative caching: after a failed download the next call for the
      same file requests it again, and a later good response is stored. */
  lemma RetryAfterFailure(disk: Disk, fetch1: Url -> Response, fetch2: Url -> Response, url: Url, path: Path)
    requires SaveTile(disk, fetch1, url, path).outcome == NotSaved
    ensures SaveTile(SaveTile(disk, fetch1, url, path).disk, fetch2, url, path).requests == [url]
    ensures Usable(fetch2(url)) ==>
              SaveTile(SaveTile(disk, fetch1, url, path).disk, fetch2, url, path).outcome == Saved
  {
  }

  /** Write-once: after a successful save, any later call for the same file,
      whatever the server would now answer, requests nothing and keeps the
      first contents. */
  lemma SavedIsFinal(disk: Disk, fetch1: Url -> Response, fetch2: Url -> Response, url: Url, url2: Url, path: Path)
    requires SaveTile(disk, fetch1, url, path).outcome == Saved
    ensures var d1 := SaveTile(disk, fetch1, url, path).disk;
            SaveTile(d1, fetch2, url2, path) == SaveStep(AlreadyCached, d1, [])
            && d1[path] == fetch1(url).content
  {
  }
}
