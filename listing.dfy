/** `filterEntriesWithCsv` and `toResponseEntry`: which children of the
    listed directory are shown, and how each is reported. */
module Listing {
  import opened Strings
  import opened PosixPath
  import opened FsTree
  import opened CsvSearch

  /** `{ name, path, isDirectory }` as sent to the client. */
  datatype ResponseEntry = ResponseEntry(name: string, path: string, isDirectory: bool)

  /** `toResponseEntry`: the entry's virtual path is the listed path joined
      with its name (POSIX rules), with a trailing `/` for a directory. */
  function ToResponseEntry(d: Dirent, normalizedPath: string): (r: ResponseEntry)
    ensures r.name == d.name
    ensures r.isDirectory == IsDirectory(d)
    ensures r.isDirectory ==> EndsWith(r.path, "/")
  {
    var joined := PosixJoin(normalizedPath, d.name);
    var path := joined + (if IsDirectory(d) then "/" else "");
    assert IsDirectory(d) ==> path[|path| - 1..] == "/";
    ResponseEntry(d.name, path, IsDirectory(d))
  }

  lemma SplitClean(segs: seq<string>, name: string)
    requires segs != [] && IsCanonical(segs) && '/' !in name
    ensures Split(Join(segs) + "/" + "/" + name) == segs + ["", name]
  {
    var j := Join(segs);
    assert j + "/" + "/" + name == j + "/" + ("/" + name);
    assert Split(j + "/" + ("/" + name)) == Split(j) + Split("/" + name) by {
      SplitAround(j, "/" + name);
    }
    assert Split(j) == segs by {
      SplitJoin(segs);
    }
    assert Split("/" + name) == ["", name] by {
      assert "/" + name == "" + "/" + name;
      SplitAround("", name);
      SplitOfPlain("");
      SplitOfPlain(name);
    }
  }

  lemma NormalizeClean(segs: seq<string>, name: string)
    requires IsCanonical(segs) && IsPlainSegment(name)
    ensures Normalize([], segs + ["", name], true) == segs + [name]
  {
    NormalizeAppend([], segs, ["", name], true);
    NormalizePlain([], segs, true);
    assert [] + segs == segs;
    assert ["", name][1..] == [name];
    assert Step(segs, "", true) == segs;
    assert Normalize(segs, ["", name], true) == Normalize(segs, [name], true);
    assert Step(segs, name, true) == segs + [name];
    assert Normalize(segs, [name], true) == Normalize(segs + [name], [name][1..], true);
    assert [name][1..] == [];
  }

  lemma {:induction false} JoinHead(segs: seq<string>)
    requires segs != [] && segs[0] != ""
    ensures Join(segs) != "" && Join(segs)[0] == segs[0][0]
  {
    if |segs| > 1 {
      assert Join(segs) == segs[0] + ("/" + Join(segs[1..]));
    }
  }

  /** Under a clean listed path (plain segments, one trailing `/`) and an
      entry name without separators, the entry's path is the listed
      path followed by the name, and `/` for a directory. */
  lemma CleanEntryPath(segs: seq<string>, d: Dirent)
    requires segs != [] && IsCanonical(segs)
    requires IsPlainSegment(d.name)
    ensures ToResponseEntry(d, Join(segs) + "/").path
            == Join(segs) + "/" + d.name + (if IsDirectory(d) then "/" else "")
  {
    var np := Join(segs) + "/";
    var p := np + "/" + d.name;
    var body := Join(segs) + "/" + d.name;
    assert Join(Normalize([], Split(p), true)) == body by {
      SplitClean(segs, d.name);
      NormalizeClean(segs, d.name);
      JoinAppend(segs, d.name);
    }
    assert !StartsWith(p, "/") by {
      JoinHead(segs);
      assert p[0] == segs[0][0];
    }
    assert !EndsWith(p, "/") by {
      assert p[|p| - 1] == d.name[|d.name| - 1];
    }
    assert PosixJoin(np, d.name) == PosixNormalize(p);
    assert PosixNormalize(p) == body;
  }

  /** An entry the listing shows: a visible CSV file, or a visible
      directory holding a CSV file somewhere below it. */
  predicate Listed(d: Dirent) {
    !IsHidden(d) && ((IsFile(d) && IsCsvFile(d.name)) || (IsDirectory(d) && ContainsCsv(d.node)))
  }

  /** The listing as a function: the shown entries, in enumeration order. */
  function ListingOf(dirents: seq<Dirent>, normalizedPath: string): seq<ResponseEntry> {
    if dirents == [] then []
    else
      var last := dirents[|dirents| - 1];
      ListingOf(dirents[..|dirents| - 1], normalizedPath)
      + (if Listed(last) then [ToResponseEntry(last, normalizedPath)] else [])
  }

  /** The positions of the shown entries, in order. */
  function ListedIndices(dirents: seq<Dirent>): seq<nat> {
    if dirents == [] then []
    else
      var n := |dirents| - 1;
      ListedIndices(dirents[..n]) + (if Listed(dirents[n]) then [n] else [])
  }

  lemma {:induction false} ListingAtIndices(dirents: seq<Dirent>, np: string)
    ensures var idx := ListedIndices(dirents);
            var out := ListingOf(dirents, np);
            && |out| == |idx|
            && (forall k :: 0 <= k < |idx| ==> idx[k] < |dirents| && out[k] == ToResponseEntry(dirents[idx[k]], np))
    decreases |dirents|
  {
    if dirents != [] {
      var n := |dirents| - 1;
      var init := dirents[..n];
      ListingAtIndices(init, np);
      var idx0 := ListedIndices(init);
      forall k | 0 <= k < |idx0| ensures init[idx0[k]] == dirents[idx0[k]] {
      }
    }
  }

  lemma {:induction false} IndicesIncrease(dirents: seq<Dirent>)
    ensures forall k :: 0 <= k < |ListedIndices(dirents)| ==> ListedIndices(dirents)[k] < |dirents|
    ensures forall k, l :: 0 <= k < l < |ListedIndices(dirents)| ==> ListedIndices(dirents)[k] < ListedIndices(dirents)[l]
    decreases |dirents|
  {
    if dirents != [] {
      var n := |dirents| - 1;
      var init := dirents[..n];
      IndicesIncrease(init);
      var idx0 := ListedIndices(init);
      var idx := ListedIndices(dirents);
      assert |init| == n;
      assert idx == idx0 + (if Listed(dirents[n]) then [n] else []);
      forall k | 0 <= k < |idx| ensures idx[k] < |dirents| {
        if k < |idx0| { assert idx[k] == idx0[k]; }
      }
      forall k, l | 0 <= k < l < |idx| ensures idx[k] < idx[l] {
        assert idx[k] == idx0[k];
        if l < |idx0| { assert idx[l] == idx0[l]; }
      }
    }
  }

  lemma {:induction false} IndicesExactlyListed(dirents: seq<Dirent>)
    ensures forall i :: 0 <= i < |dirents| ==> (i in ListedIndices(dirents) <==> Listed(dirents[i]))
    decreases |dirents|
  {
    if dirents != [] {
      var n := |dirents| - 1;
      var init := dirents[..n];
      IndicesExactlyListed(init);
      IndicesIncrease(init);
      var idx0 := ListedIndices(init);
      assert |init| == n;
      assert forall k :: 0 <= k < |idx0| ==> idx0[k] < n;
      assert n !in idx0;
      assert ListedIndices(dirents) == idx0 + (if Listed(dirents[n]) then [n] else []);
      forall i | 0 <= i < n ensures init[i] == dirents[i] {
      }
    }
  }

  /** The listing is the subsequence of the dirents at strictly increasing
      positions, holding exactly the entries that are `Listed`. */
  lemma ListingIsOrderedSubsequence(dirents: seq<Dirent>, np: string)
    ensures var idx := ListedIndices(dirents);
            var out := ListingOf(dirents, np);
            && |out| == |idx|
            && (forall k :: 0 <= k < |idx| ==> idx[k] < |dirents| && out[k] == ToResponseEntry(dirents[idx[k]], np))
            && (forall k, l :: 0 <= k < l < |idx| ==> idx[k] < idx[l])
            && (forall i :: 0 <= i < |dirents| ==> (i in idx <==> Listed(dirents[i])))
  {
    ListingAtIndices(dirents, np);
    IndicesIncrease(dirents);
    IndicesExactlyListed(dirents);
  }

  /** Nothing shown is hidden, every directory shown holds a CSV file, and
      every file shown is a CSV file. */
  lemma ListingShowsOnlyCsv(dirents: seq<Dirent>, np: string)
    ensures forall e :: e in ListingOf(dirents, np) ==>
              !StartsWith(e.name, ".")
              && exists i :: 0 <= i < |dirents| && dirents[i].name == e.name && Listed(dirents[i])
                             && e.isDirectory == IsDirectory(dirents[i])
  {
    ListingIsOrderedSubsequence(dirents, np);
    var idx := ListedIndices(dirents);
    forall e | e in ListingOf(dirents, np)
      ensures exists i :: 0 <= i < |dirents| && dirents[i].name == e.name && Listed(dirents[i])
                          && e.isDirectory == IsDirectory(dirents[i])
    {
      var k :| 0 <= k < |ListingOf(dirents, np)| && ListingOf(dirents, np)[k] == e;
      assert idx[k] in idx;
    }
  }

  /** `filterEntriesWithCsv`: walks the dirents once, asking `hasCsvWithin`
      about each visible directory. */
  method FilterEntriesWithCsv(dirents: seq<Dirent>, normalizedPath: string) returns (entries: seq<ResponseEntry>)
    ensures entries == ListingOf(dirents, normalizedPath)
  {
    entries := [];
    for i := 0 to |dirents|
      invariant entries == ListingOf(dirents[..i], normalizedPath)
    {
      var entry := dirents[i];
      assert dirents[..i + 1][..i] == dirents[..i];
      if IsHidden(entry) {
        continue;
      }
      if IsFile(entry) {
        if !IsCsvFile(entry.name) {
          continue;
        }
        entries := entries + [ToResponseEntry(entry, normalizedPath)];
        continue;
      }
      if !IsDirectory(entry) {
        continue;
      }
      var containsCsv := HasCsvWithin(entry.node);
      if !containsCsv {
        continue;
      }
      entries := entries + [ToResponseEntry(entry, normalizedPath)];
    }
    assert dirents[..|dirents|] == dirents;
  }

  /** A CSV file is shown; a text file and a directory holding only a text
      file are not (`a.csv`, `b.txt`, `sub/c.txt` list `a.csv` alone). */
  lemma FlatScenario(csv: string, txt: string, sub: string, inner: string, np: string)
    requires IsCsvFile(csv) && !IsCsvFile(txt) && !IsCsvFile(inner)
    requires !StartsWith(csv, ".") && !StartsWith(txt, ".") && !StartsWith(sub, ".")
    ensures var dirents := [Dirent(csv, File), Dirent(txt, File), Dirent(sub, Dir([Dirent(inner, File)]))];
            ListingOf(dirents, np) == [ResponseEntry(csv, ToResponseEntry(dirents[0], np).path, false)]
  {
    var d := Dirent(sub, Dir([Dirent(inner, File)]));
    var dirents := [Dirent(csv, File), Dirent(txt, File), d];
    assert !LeadsToCsv(d.node.children[0]);
    assert !ContainsCsv(d.node);
    assert !Listed(d) && !Listed(dirents[1]) && Listed(dirents[0]);
    var shown := [ToResponseEntry(dirents[0], np)];
    assert ListingOf([dirents[0]], np) == shown by {
      assert [dirents[0]][..0] == [];
    }
    assert ListingOf(dirents[..2], np) == shown by {
      assert dirents[..2][..1] == [dirents[0]];
    }
    assert dirents[..2] == dirents[..|dirents| - 1];
  }

  /** A directory with a CSV file two levels down is shown as a directory,
      its path being the listed path, its name and a `/`
      (`nested/deep/data.csv` lists `nested/`). */
  lemma NestedScenario(segs: seq<string>, outer: string, inner: string, csv: string)
    requires segs != [] && IsCanonical(segs)
    requires IsPlainSegment(outer) && !StartsWith(outer, ".") && !StartsWith(inner, ".")
    requires IsCsvFile(csv) && !StartsWith(csv, ".")
    ensures var nested := Dirent(outer, Dir([Dirent(inner, Dir([Dirent(csv, File)]))]));
            ListingOf([nested], Join(segs) + "/")
            == [ResponseEntry(outer, Join(segs) + "/" + outer + "/", true)]
  {
    var deep := Dirent(inner, Dir([Dirent(csv, File)]));
    var nested := Dirent(outer, Dir([deep]));
    assert LeadsToCsv(deep.node.children[0]);
    assert LeadsToCsv(nested.node.children[0]);
    assert Listed(nested);
    CleanEntryPath(segs, nested);
    assert [nested][..0] == [];
  }
}
