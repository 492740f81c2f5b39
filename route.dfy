/** `GET /api/server-data?path=…`: normalise, confine, read, filter. */
module Route {
  import opened Wrappers
  import opened PosixPath
  import opened VirtualPath
  import opened FsTree
  import opened Listing
  import opened Confinement

  /** The three outcomes: 200 with `{ entries, path }`, 400 for a path
      outside the data directory, 404 for a directory that cannot be read. */
  datatype Response = Ok(entries: seq<ResponseEntry>, path: string) | BadRequest | NotFound

  /** `url.searchParams.get("path") ?? SERVER_ROOT_DIR`: only a missing
      parameter is defaulted; an empty one is left to the normaliser. */
  function RequestedPath(query: Option<string>): (r: string)
    ensures query.Some? ==> r == query.value
    ensures query.None? ==> r == ServerRootDir && IsNormalized(r)
  {
    query.GetOr(ServerRootDir)
  }

  /** The `try` block: read the target, then filter its entries; a read
      that throws gives 404 and no entries at all. */
  method ListDirectory(fs: Node, resolved: seq<string>, normalized: string) returns (r: Response)
    ensures ReadDir(fs, resolved).None? ==> r == NotFound
    ensures ReadDir(fs, resolved).Some? ==> r == Ok(ListingOf(ReadDir(fs, resolved).value, normalized), normalized)
  {
    var dirents := ReadDir(fs, resolved);
    if dirents.None? {
      return NotFound;
    }
    var entries := FilterEntriesWithCsv(dirents.value, normalized);
    return Ok(entries, normalized);
  }

  /** The handler as written: the string-prefix check decides 400 before
      anything is read, and it lets through the siblings of the data
      directory whose names extend `server-data`. `cwd` stands for
      `process.cwd()`, an absolute canonical path. */
  method Get(fs: Node, cwd: seq<string>, query: Option<string>) returns (r: Response)
    requires IsCanonical(cwd)
    ensures var normalized := NormalizeDirectoryPath(RequestedPath(query));
            var listing := ReadDir(fs, ResolvedTarget(cwd, normalized));
            && (r.BadRequest? <==> !PassesGuard(cwd, normalized))
            && (r.BadRequest? <==> !UnderDataPrefix(cwd, ResolvedTarget(cwd, normalized)))
            && (r.NotFound? <==> PassesGuard(cwd, normalized) && listing.None?)
            && (r.Ok? ==> listing.Some? && IsNormalized(r.path) && r == Ok(ListingOf(listing.value, normalized), normalized))
  {
    var normalized := NormalizeDirectoryPath(RequestedPath(query));
    var resolved := ResolvedTarget(cwd, normalized);
    if !PassesGuard(cwd, normalized) {
      return BadRequest;
    }
    r := ListDirectory(fs, resolved, normalized);
  }

  /** The handler with the corrected check: only the data directory and
      what lies below it are ever read. */
  method GetConfined(fs: Node, cwd: seq<string>, query: Option<string>) returns (r: Response)
    requires IsCanonical(cwd)
    ensures var normalized := NormalizeDirectoryPath(RequestedPath(query));
            var resolved := ResolvedTarget(cwd, normalized);
            && (r.BadRequest? <==> !(ServerDataRoot(cwd) <= resolved))
            && (r.NotFound? <==> ServerDataRoot(cwd) <= resolved && ReadDir(fs, resolved).None?)
            && (r.Ok? ==> ServerDataRoot(cwd) <= resolved && ReadDir(fs, resolved).Some?
                          && r == Ok(ListingOf(ReadDir(fs, resolved).value, normalized), normalized))
  {
    var normalized := NormalizeDirectoryPath(RequestedPath(query));
    var resolved := ResolvedTarget(cwd, normalized);
    if !WithinRoot(cwd, normalized) {
      return BadRequest;
    }
    r := ListDirectory(fs, resolved, normalized);
  }

  /** With no `path` parameter the handler lists the data directory
      itself, which always passes the check. */
  lemma DefaultRequestListsRoot(cwd: seq<string>)
    ensures var normalized := NormalizeDirectoryPath(RequestedPath(None));
            && normalized == ServerRootDir
            && ResolvedTarget(cwd, normalized) == ServerDataRoot(cwd)
            && PassesGuard(cwd, normalized)
  {
    var normalized := NormalizeDirectoryPath(RequestedPath(None));
    assert normalized == ServerRootDir by {
      assert RequestedPath(None) == ServerRootDir;
      FixedPoints(ServerRootDir);
    }
    assert ResolvedTarget(cwd, normalized) == ServerDataRoot(cwd) && PassesGuard(cwd, normalized) by {
      RootResolvesToDataDirectory(cwd);
    }
  }
}
