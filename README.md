# csv-viewer directory listing, modelled in Dafny

The csv-viewer web utility lets a user browse a server-side directory tree
and open CSV files. Its only non-trivial logic is the listing endpoint
`GET /api/server-data?path=…` in `app/api/server-data/route.ts`. This
project models that endpoint and proves its properties.

The endpoint runs four steps:

- **Normalise.** `normalizeDirectoryPath` turns the `path` query parameter
  into a virtual path of the form `server-data/…/`.
- **Confine.** The virtual path is mapped onto `<cwd>/public/server-data`
  and resolved. A target that does not start, as a string, with the
  resolved data directory is answered with 400.
- **Read.** The target directory is read. A read that throws is answered
  with 404.
- **Filter.** `filterEntriesWithCsv` keeps the children that are CSV files,
  plus the directories for which the breadth-first search `hasCsvWithin`
  finds a CSV file somewhere below. `toResponseEntry` then shapes each kept
  child as `{ name, path, isDirectory }`.

Modules, one concept each:

| module | file | models |
|---|---|---|
| `Wrappers` | wrappers.dfy | optional values: the missing query parameter, the failed read |
| `Strings` | strings.dfy | `trim`, `toLowerCase`, `startsWith`, `endsWith` (ASCII) |
| `PosixPath` | posix_path.dfy | POSIX path splitting, joining and normalisation as done by `path.join`, `path.resolve`, `path.posix.join` |
| `VirtualPath` | normalize.dfy | `normalizeDirectoryPath` |
| `FsTree` | fs_tree.dfy | the filesystem as an immutable tree, and `readdir` |
| `CsvSearch` | csv_search.dfy | `isCsvFile` and `hasCsvWithin` |
| `Listing` | listing.dfy | `filterEntriesWithCsv` and `toResponseEntry` |
| `Confinement` | confinement.dfy | the confinement check inside `GET` |
| `Route` | route.dfy | `GET` |

Each part takes the form the source gives it:

- `hasCsvWithin` and `filterEntriesWithCsv` are methods with loops. The
  search keeps an explicit queue. Each method is proved against a
  recursive specification function (`ContainsCsv`, `ListingOf`), and the
  properties are proved as lemmas about that function.
- `normalizeDirectoryPath`, `isCsvFile` and `toResponseEntry` are
  functions. The regex `^\.\/?` at route.ts:105 removes one leading `.`
  even when no `/` follows it, so `../x` becomes `server-data/./x/` and
  stays inside the virtual root (`VirtualPath.LoneDotStripped`,
  `VirtualPath.ParentPrefixBecomesDot`).
- `GET` is a method. Its postcondition states all three outcomes.

Two kinds of filesystem failure stay apart, as the source keeps them apart:

- `Unreadable` stands for a directory whose `readdir` throws. At the top
  level this becomes `NotFound`. Inside the search it counts as an empty
  directory.
- `Other` stands for any entry that is neither a file nor a directory.

## Model

| member | source | states |
|---|---|---|
| VirtualPath.NormalizeDirectoryPath | app/api/server-data/route.ts:100-114 | for every input, the result starts with `server-data/` and ends with `/` |
| VirtualPath.StripLeadingDot | app/api/server-data/route.ts:105 | removes exactly a leading `./` when present, else exactly a leading `.`, and leaves a string without a leading `.` alone |
| VirtualPath.StripLeadingSlash | app/api/server-data/route.ts:106 | removes exactly one leading `/` when present, and leaves other strings alone |
| VirtualPath.Decorate | app/api/server-data/route.ts:107-112 | the result is normalised; a string already under `server-data/` gains at most a trailing `/`, any other gains the prefix and at most a trailing `/`; a string that already ends with `/` gains no second one |
| VirtualPath.DecorateOutside | app/api/server-data/route.ts:107-112 | a non-empty string not under `server-data/` gains the prefix, and a `/` only when it does not already end with one |
| VirtualPath.DecoratesToRoot | app/api/server-data/route.ts:107-112 | only the empty string and `server-data/` itself end up as exactly `server-data/` |
| VirtualPath.FixedPoints | app/api/server-data/route.ts:100-114 | normalisation leaves a string unchanged exactly when the string already starts with `server-data/` and ends with `/` |
| VirtualPath.Idempotent | app/api/server-data/route.ts:100-114 | normalising twice gives the same result as normalising once |
| VirtualPath.RootExactly | app/api/server-data/route.ts:101-109 | the result is exactly `server-data/` iff what remains after trimming, defaulting and the two strips is empty or is `server-data/` itself |
| VirtualPath.BlankGivesRoot | app/api/server-data/route.ts:101-106 | an empty or all-whitespace input gives `server-data/`, and so does an input that trims to `/`, `.` or `./` |
| VirtualPath.UnderRootGainsSlash | app/api/server-data/route.ts:107-112 | an input already under `server-data/` with no surrounding whitespace is returned as is, or with one `/` appended when it lacks a trailing one |
| VirtualPath.OutsideRootGainsPrefix | app/api/server-data/route.ts:107-112 | a non-empty stripped input that is not under `server-data/` comes back as `server-data/` + input, followed by `/` only when the input does not already end with one |
| VirtualPath.LoneDotStripped | app/api/server-data/route.ts:105-106 | the regex `^\.\/?` removes a leading `.` even when no `/` follows it, and nothing more |
| VirtualPath.ParentPrefixBecomesDot | app/api/server-data/route.ts:105-112 | `../t` is normalised to `server-data/./t/`: the leading `..` loses one dot and ends up inside the virtual root |
| Strings.Trim | app/api/server-data/route.ts:101 | the result is a slice of the input; everything cut from either end is whitespace; the result neither starts nor ends with whitespace |
| Strings.TrimOfTrimmed | app/api/server-data/route.ts:101 | a string with no whitespace at either end is its own trim |
| Strings.TrimOfBlank | app/api/server-data/route.ts:101-104 | an all-whitespace string trims to the empty string |
| Strings.ToLower | app/api/server-data/route.ts:97 | keeps the length and lower-cases each ASCII capital letter, leaving every other character alone |
| CsvSearch.IsCsvFile | app/api/server-data/route.ts:96-98 | true iff the name's last four characters are `.`, `c`/`C`, `s`/`S`, `v`/`V` |
| CsvSearch.HasCsvWithin | app/api/server-data/route.ts:59-85 | the breadth-first search terminates and returns true iff the subtree contains a CSV file, as defined by `ContainsCsv` |
| CsvSearch.ContainsCsvIffReachable | app/api/server-data/route.ts:59-85 | a subtree contains a CSV file iff some path of visible, readable directories leads to a visible CSV file |
| CsvSearch.ContainsCsvIsReachable | app/api/server-data/route.ts:59-85 | when the search would succeed, there is a concrete index path to a visible CSV file |
| CsvSearch.ReachableContainsCsv | app/api/server-data/route.ts:59-85 | every index path to a visible CSV file makes the search succeed |
| CsvSearch.PushKeepsSearch | app/api/server-data/route.ts:79-81 | enqueuing a subdirectory adds exactly that subtree to what the rest of the search can still find |
| CsvSearch.HiddenIgnored | app/api/server-data/route.ts:73-75 | replacing whatever lies under a dot-named entry never changes the answer |
| CsvSearch.UnreadableIsEmpty | app/api/server-data/route.ts:66-71 | an unreadable subdirectory counts as empty: the answer is decided by the other entries alone |
| CsvSearch.OtherIgnored | app/api/server-data/route.ts:76-81 | an entry that is neither a file nor a directory never leads to a CSV file |
| Listing.ToResponseEntry | app/api/server-data/route.ts:87-94 | keeps the dirent's name; `isDirectory` matches the dirent; a directory's path ends with `/` |
| Listing.CleanEntryPath | app/api/server-data/route.ts:87-94 | under a listed path made of plain segments, an entry's path is that listed path, then the name, then `/` for a directory |
| Listing.FilterEntriesWithCsv | app/api/server-data/route.ts:33-57 | the loop returns exactly `ListingOf(dirents)`, the kept entries in enumeration order |
| Listing.ListingIsOrderedSubsequence | app/api/server-data/route.ts:33-57 | the listing is the dirents at strictly increasing positions, and a position is kept iff its entry is a visible CSV file or a visible directory containing a CSV file |
| Listing.ListingAtIndices | app/api/server-data/route.ts:33-57 | the k-th listed entry is the response entry of the dirent at the k-th kept position |
| Listing.IndicesIncrease | app/api/server-data/route.ts:35 | kept positions lie within the dirents and strictly increase, so the enumeration order is preserved |
| Listing.IndicesExactlyListed | app/api/server-data/route.ts:36-54 | a position is kept iff its dirent passes the filter |
| Listing.ListingShowsOnlyCsv | app/api/server-data/route.ts:33-57 | no listed name starts with `.`, and each listed entry comes from a dirent that passes the filter and has the same kind |
| Listing.FlatScenario | app/api/server-data/route.ts:35-56 | given `a.csv`, `b.txt` and `sub/` holding only `c.txt`, only `a.csv` is listed |
| Listing.NestedScenario | app/api/server-data/route.ts:47-54 | a directory with a CSV file two levels down is listed, as a directory, with path `<listed path><name>/` |
| PosixPath.PosixNormalize | app/api/server-data/route.ts:88 | never empty; an absolute path stays absolute; a trailing `/` survives |
| PosixPath.PosixJoin | app/api/server-data/route.ts:88 | never empty; two empty arguments give `.`; an absolute base gives an absolute result; a name with a trailing `/` keeps it (`Listing.CleanEntryPath` gives the exact result for clean paths) |
| PosixPath.JoinPrefix | app/api/server-data/route.ts:19 | for canonical paths, the character string of `b` continues that of `a` followed by `/` iff `b` extends `a` by at least one segment |
| PosixPath.Render | app/api/server-data/route.ts:17 | the string `path.resolve` returns for a normalised path is absolute; `PosixPath.JoinPrefix` states how its prefixes relate to segment prefixes |
| PosixPath.NormalizeAppend | app/api/server-data/route.ts:16-17 | normalising a concatenation is normalising the second part on top of the normalised first part |
| PosixPath.NormalizePlain | app/api/server-data/route.ts:16-17 | normalising plain segments (no `.`, `..` or empty ones) only appends them |
| PosixPath.SplitJoin | app/api/server-data/route.ts:88 | splitting the `/`-join of separator-free segments gives the segments back |
| PosixPath.NormalizeCanonical | app/api/server-data/route.ts:16-17 | an absolute normalisation on top of a canonical path yields a canonical path: no `.`, `..` or empty segments |
| PosixPath.NormalizeWithoutDotDot | app/api/server-data/route.ts:16-17 | without a `..` segment, normalisation only ever extends the starting path |
| Confinement.ServerDataRoot | app/api/server-data/route.ts:7 | the data directory is the working directory followed by exactly the segments `public` and `server-data`, and is canonical when the working directory is |
| Confinement.RelativePart | app/api/server-data/route.ts:15 | for a normalised path, removing `server-data/` leaves exactly what follows the virtual prefix |
| Confinement.ResolvedTarget | app/api/server-data/route.ts:15-17 | under a canonical working directory the resolved target is canonical; with no `..` segment after the virtual prefix it is the data directory or lies below it |
| Confinement.JoinThenResolve | app/api/server-data/route.ts:15-17 | for a canonical working directory, normalising the string `<rendered data directory>/<relative part>` from the filesystem root gives exactly `ResolvedTarget` |
| PosixPath.ResolveRendered | app/api/server-data/route.ts:17 | resolving the string of a canonical path, with or without a trailing `/`, gives the same path back, so `path.resolve` after `path.join` adds no further change |
| Confinement.PassesGuard | app/api/server-data/route.ts:19 | for a canonical working directory, the string check passes iff the target lies in `<cwd>/public` and its next segment starts with `server-data`: the data directory and what is below it, plus every sibling whose name extends `server-data` |
| Confinement.GuardAdmitsExactly | app/api/server-data/route.ts:19 | for canonical paths, the rendered target starts with the rendered data directory iff the target is in `<cwd>/public` under a segment that starts with `server-data` |
| Confinement.NoParentSegmentPasses | app/api/server-data/route.ts:15-21 | a request with no `..` segment after the virtual prefix resolves to the data directory or below it, and passes the check |
| Confinement.RootResolvesToDataDirectory | app/api/server-data/route.ts:15-21 | the virtual root resolves to the data directory itself and passes the check |
| Confinement.WithinRoot | app/api/server-data/route.ts:19 | the corrected check (the data directory is a segment prefix of the target) never admits a target the string check rejects |
| Confinement.SiblingResolvesBeside | app/api/server-data/route.ts:15-17 | `server-data/../<name>` resolves to `<cwd>/public/<name>`, beside the data directory |
| Confinement.SiblingPassesGuard | app/api/server-data/route.ts:15-21 | for any sibling name that extends `server-data`, the request `server-data/../<name>` resolves outside the data directory and still passes the string check |
| Confinement.ClimbingOutFails | app/api/server-data/route.ts:15-21 | `../../<name>` resolves to `<cwd>/public/<name>`, and the check rejects it for every plain name that does not start with `server-data`; with `Confinement.SiblingPassesGuard` this is the exact boundary |
| Route.RequestedPath | app/api/server-data/route.ts:13 | a present parameter is used as given, even when empty; a missing one becomes `server-data/` |
| FsTree.ReadDir | app/api/server-data/route.ts:24 | the entries of the directory at the path when every directory on the way and the target itself can be read; nothing otherwise |
| Route.ListDirectory | app/api/server-data/route.ts:23-30 | an unreadable or missing target gives `NotFound` and no partial entries; otherwise `Ok` with the filtered listing and the normalised path |
| Route.Get | app/api/server-data/route.ts:11-31 | `BadRequest` iff the string check fails, that is iff the target is not in `<cwd>/public` under a segment starting with `server-data`, and then no directory is read; `NotFound` iff the check passes and the target cannot be read; on `Ok`, the entries are the listing of the target and `path` is the normalised input |
| Route.GetConfined | app/api/server-data/route.ts:11-31 | as `Route.Get`, but it answers `BadRequest` iff the resolved target is not the data directory or below it, so it never reads a resolved path string outside the data directory (a symbolic link below the data directory can still lead elsewhere on a real filesystem; see "Left out") |
| Route.DefaultRequestListsRoot | app/api/server-data/route.ts:13-21 | with no `path` parameter, the virtual path is `server-data/`, it resolves to the data directory, and it passes the check |

## Left out

- HTTP plumbing is not modelled: `NextResponse`, `URL` parsing, JSON bodies, the error texts and `export const dynamic`. The result is the `Response` datatype, and the query parameter is an `Option<string>`.
- Real I/O and `async`/`await` are not modelled. `readdir` is a lookup in an immutable tree value, so the directory cannot change during a request.
- `process.cwd()` is a parameter: a canonical absolute path (plain segments, no `.`, `..` or empty ones), given as a sequence of segments. `Route.Get` and `Route.GetConfined` require this.
- Windows separators and drive letters are left out. Only POSIX path rules are modelled.
- Strings.Trim: only ASCII whitespace is removed. Unicode spaces and line terminators are not.
- Strings.ToLower: only ASCII letters are lower-cased.
- CsvSearch.HasCsvWithin: the queue holds subtrees instead of path strings. This is equivalent because entry names are unique within a directory, and `path.join` of a directory and a plain name reaches that child.
- The dead branch `if (!current)` at app/api/server-data/route.ts:63 is left out, because a queued path is never empty.
- Symbolic links and other special entries are `Other`. Inside the listing and the search this matches the program: the `Dirent` of a link is neither a file nor a directory, so it is never listed or queued. A link on or at the requested path is different. `path.resolve` only rewrites the string, and `readdir` then follows the link and lists its target, wherever that is. The model's `FsTree.Lookup` fails on a link, so for such a request `Route.Get` and `Route.GetConfined` answer `NotFound` where the program lists the link's target.
- `Unreadable` also blocks a lookup that passes through it. A real directory that can be traversed but not listed is not modelled.
- Concurrency between requests is left out. Each call is a sequential, read-only traversal.
- The page component `app/[[...virtual]]/page.tsx` is not part of this model.

## Findings

| source | as written | input that shows it | evidently intended | confidence | as-written member | corrected member |
|---|---|---|---|---|---|---|
| app/api/server-data/route.ts:19 | `resolved.startsWith(path.resolve(SERVER_DATA_ROOT))` compares characters, so `<cwd>/public/server-data-old` passes | `?path=server-data/../server-data-old` reads the sibling directory `<cwd>/public/server-data-old` | the target must be the data directory itself or lie below it (a segment-prefix test) | not executed | Confinement.SiblingPassesGuard | Route.GetConfined |
