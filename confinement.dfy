/** The confinement check of `GET`: the normalised virtual path is mapped
    onto the data directory, resolved, and accepted only if the resolved
    path starts, as a string, with the resolved data directory. */
module Confinement {
  import opened Strings
  import opened PosixPath
  import opened VirtualPath

  /** SERVER_DATA_ROOT: `<cwd>/public/server-data`, as segments. */
  function ServerDataRoot(cwd: seq<string>): (r: seq<string>)
    ensures |r| == |cwd| + 2 && r[..|cwd|] == cwd && r[|cwd|..] == ["public", "server-data"]
    ensures IsCanonical(cwd) ==> IsCanonical(r)
  {
    cwd + ["public", "server-data"]
  }

  /** `normalized.replace(/^server-data\/?/, "")`. */
  function RelativePart(normalized: string): (r: string)
    ensures IsNormalized(normalized) ==> r == normalized[|ServerRootDir|..]
  {
    assert IsNormalized(normalized) ==> normalized[..11] == ServerRootDir[..11] && normalized[11] == '/';
    if StartsWith(normalized, "server-data") then
      var rest := normalized[11..];
      if StartsWith(rest, "/") then rest[1..] else rest
    else normalized
  }

  /** `path.resolve(path.join(SERVER_DATA_ROOT, relative))`: both calls
      normalise an absolute path, so together they are one normalisation of
      the relative part's segments on top of the root's (`JoinThenResolve`;
      `PosixPath.ResolveRendered` shows the second call changes nothing).
      The result is canonical, and without a `..` segment it lies in the
      data directory. */
  function ResolvedTarget(cwd: seq<string>, normalized: string): (r: seq<string>)
    ensures IsCanonical(cwd) ==> IsCanonical(r)
    ensures ".." !in Split(RelativePart(normalized)) ==> ServerDataRoot(cwd) <= r
  {
    var root := ServerDataRoot(cwd);
    var segs := Split(RelativePart(normalized));
    var r := Normalize(root, segs, false);
    assert IsCanonical(cwd) ==> IsCanonical(r) by {
      if IsCanonical(cwd) {
        NormalizeCanonical(root, segs);
      }
    }
    assert ".." !in segs ==> root <= r by {
      if ".." !in segs {
        NormalizeWithoutDotDot(root, segs, false);
        var tail :| r == root + tail;
      }
    }
    r
  }

  /** `ResolvedTarget` is what normalising the string the handler builds
      gives: the rendered data directory, a `/`, and the relative part,
      read from the filesystem root. */
  lemma {:induction false} JoinThenResolve(cwd: seq<string>, normalized: string)
    requires IsCanonical(cwd)
    ensures Normalize([], Split(Render(ServerDataRoot(cwd)) + "/" + RelativePart(normalized)), false)
            == ResolvedTarget(cwd, normalized)
  {
    var root := ServerDataRoot(cwd);
    var rel := RelativePart(normalized);
    var segs := Split(Render(root) + "/" + rel);
    assert segs == [""] + (root + Split(rel)) by {
      assert Render(root) + "/" + rel == "" + "/" + (Join(root) + "/" + rel);
      SplitAround("", Join(root) + "/" + rel);
      SplitOfPlain("");
      SplitAround(Join(root), rel);
      SplitJoin(root);
    }
    assert Normalize([], segs, false) == Normalize([], root + Split(rel), false) by {
      assert segs[0] == "" && segs[1..] == root + Split(rel);
    }
    assert Normalize([], root + Split(rel), false) == Normalize(root, Split(rel), false) by {
      NormalizeAppend([], root, Split(rel), false);
      NormalizePlain([], root, false);
      assert [] + root == root;
    }
  }

  /** What the character-prefix check admits: a target inside `<cwd>/public`
      whose next segment starts with `server-data`. */
  predicate UnderDataPrefix(cwd: seq<string>, target: seq<string>) {
    var up := cwd + ["public"];
    |target| > |up| && target[..|up|] == up && StartsWith(target[|up|], "server-data")
  }

  /** `resolved.startsWith(path.resolve(SERVER_DATA_ROOT))`: a character
      prefix test, not a segment prefix test. For a canonical working
      directory it admits exactly the targets `UnderDataPrefix` describes:
      the data directory, what lies below it, and every sibling whose name
      extends `server-data`, with what lies below those. */
  function PassesGuard(cwd: seq<string>, normalized: string): (r: bool)
    ensures IsCanonical(cwd) ==> (r <==> UnderDataPrefix(cwd, ResolvedTarget(cwd, normalized)))
  {
    var resolved := ResolvedTarget(cwd, normalized);
    var r := StartsWith(Render(resolved), Render(ServerDataRoot(cwd)));
    assert IsCanonical(cwd) ==> (r <==> UnderDataPrefix(cwd, resolved)) by {
      if IsCanonical(cwd) {
        GuardAdmitsExactly(cwd, resolved);
      }
    }
    r
  }

  lemma GuardAdmitsExactly(cwd: seq<string>, target: seq<string>)
    requires IsCanonical(cwd) && IsCanonical(target)
    ensures StartsWith(Render(target), Render(ServerDataRoot(cwd))) <==> UnderDataPrefix(cwd, target)
  {
    var up := cwd + ["public"];
    var p := Render(up) + "/";
    RootRender(cwd);
    InsidePublic(up, target);
    StartsWithShorter(Render(target), p, "server-data");
    if |target| > |up| && target[..|up|] == up {
      NextSegmentDecides(up, target);
    }
  }

  /** The data directory renders as `<cwd>/public` + `/server-data`. */
  lemma RootRender(cwd: seq<string>)
    ensures Render(ServerDataRoot(cwd)) == Render(cwd + ["public"]) + "/" + "server-data"
  {
    assert ServerDataRoot(cwd) == (cwd + ["public"]) + ["server-data"];
    JoinAppend(cwd + ["public"], "server-data");
  }

  /** A canonical target's rendering continues `<up>/` iff the target lies below `up`. */
  lemma InsidePublic(up: seq<string>, target: seq<string>)
    requires up != [] && IsCanonical(up) && IsCanonical(target)
    ensures StartsWith(Render(target), Render(up) + "/") <==> |target| > |up| && target[..|up|] == up
  {
    JoinPrefix(up, target);
    assert Render(up) + "/" == "/" + (Join(up) + "/");
    StartsWithCancel("/", Join(target), Join(up) + "/");
  }

  /** Below `up`, the character check compares the next segment with `server-data`. */
  lemma NextSegmentDecides(up: seq<string>, target: seq<string>)
    requires up != [] && |target| > |up| && target[..|up|] == up
    ensures StartsWith(Render(target), Render(up) + "/" + "server-data") <==> StartsWith(target[|up|], "server-data")
  {
    var p := Render(up) + "/";
    var rest := target[|up|..];
    assert Render(target) == p + Join(rest) by {
      assert target == up + rest;
      JoinConcat(up, rest);
    }
    StartsWithCancel(p, Join(rest), "server-data");
    JoinHeadPrefix(rest, "server-data");
  }

  /** With no `..` segment after the virtual root, the target stays below
      the data directory, so the request always passes the check. */
  lemma NoParentSegmentPasses(cwd: seq<string>, normalized: string)
    requires ".." !in Split(RelativePart(normalized))
    ensures ServerDataRoot(cwd) <= ResolvedTarget(cwd, normalized)
    ensures PassesGuard(cwd, normalized)
  {
    assert WithinRoot(cwd, normalized);
  }

  /** The virtual root resolves to the data directory itself, which
      passes the check. */
  lemma RootResolvesToDataDirectory(cwd: seq<string>)
    ensures ResolvedTarget(cwd, ServerRootDir) == ServerDataRoot(cwd)
    ensures PassesGuard(cwd, ServerRootDir)
  {
    var root := ServerDataRoot(cwd);
    assert RelativePart(ServerRootDir) == "" by {
      assert IsNormalized(ServerRootDir);
    }
    assert Split("") == [""] by {
      SplitOfPlain("");
    }
    assert Normalize(root, [""], false) == root by {
      assert Normalize(root, [""], false) == Normalize(root, [], false);
    }
    assert root <= ResolvedTarget(cwd, ServerRootDir);
    NoParentSegmentPasses(cwd, ServerRootDir);
  }

  /** The corrected check: the data directory is a segment prefix of the
      resolved target, i.e. the target is the directory or lies below it.
      It never admits more than the string check. */
  function WithinRoot(cwd: seq<string>, normalized: string): (r: bool)
    ensures r ==> PassesGuard(cwd, normalized)
  {
    var root := ServerDataRoot(cwd);
    var resolved := ResolvedTarget(cwd, normalized);
    var r := root <= resolved;
    assert r ==> StartsWith(Render(resolved), Render(root)) by {
      if r {
        assert resolved == root + resolved[|root|..];
        RenderExtends(root, resolved[|root|..]);
      }
    }
    r
  }

  lemma RenderSibling(base: seq<string>, x: string, y: string)
    requires base != []
    ensures Render(base + [x]) == Render(base) + "/" + x
    ensures Render(base + [y]) == Render(base) + "/" + y
  {
    JoinAppend(base, x);
    JoinAppend(base, y);
  }

  lemma NormalizeSiblingRequest(sibling: string)
    requires IsPlainSegment(sibling) && !IsWhitespace(sibling[|sibling| - 1])
    ensures NormalizeDirectoryPath(ServerRootDir + "../" + sibling) == ServerRootDir + "../" + sibling + "/"
  {
    var tail := "../" + sibling;
    var input := ServerRootDir + tail;
    assert input == ServerRootDir + "../" + sibling;
    StartsWithAppend(ServerRootDir, tail);
    assert input[|input| - 1] == sibling[|sibling| - 1];
    UnderRootGainsSlash(input);
  }

  lemma SplitSiblingRequest(sibling: string)
    requires IsPlainSegment(sibling)
    ensures Split(RelativePart(ServerRootDir + "../" + sibling + "/")) == ["..", sibling, ""]
  {
    var normalized := ServerRootDir + "../" + sibling + "/";
    assert normalized[..|ServerRootDir|] == ServerRootDir;
    assert normalized[|normalized| - 1..] == "/";
    var rel := RelativePart(normalized);
    assert rel == ".." + "/" + (sibling + "/" + "");
    SplitAround("..", sibling + "/" + "");
    SplitAround(sibling, "");
    SplitOfPlain("..");
    SplitOfPlain(sibling);
    SplitOfPlain("");
  }

  /** `..` from the data directory then `name` lands beside it. */
  lemma ResolveBeside(cwd: seq<string>, name: string)
    requires IsPlainSegment(name)
    ensures Normalize(ServerDataRoot(cwd), ["..", name, ""], false) == cwd + ["public", name]
  {
    var segs := ["..", name, ""];
    var up := cwd + ["public"];
    var root := ServerDataRoot(cwd);
    assert root == up + ["server-data"];
    assert Step(root, "..", false) == up;
    assert segs[1..] == [name, ""] && segs[1..][1..] == [""];
    assert Normalize(root, segs, false) == Normalize(up, [name, ""], false);
    assert Normalize(up, [name, ""], false) == Normalize(up + [name], [""], false);
    assert Normalize(up + [name], [""], false) == Normalize(up + [name], [], false);
  }

  /** `server-data/../<sibling>` resolves beside the data directory. */
  lemma SiblingResolvesBeside(cwd: seq<string>, sibling: string)
    requires IsPlainSegment(sibling) && !IsWhitespace(sibling[|sibling| - 1])
    ensures ResolvedTarget(cwd, NormalizeDirectoryPath(ServerRootDir + "../" + sibling)) == cwd + ["public", sibling]
  {
    NormalizeSiblingRequest(sibling);
    SplitSiblingRequest(sibling);
    ResolveBeside(cwd, sibling);
  }

  /** A sibling whose name extends the data directory's renders as an
      extension of it. */
  lemma SiblingRenderExtends(up: seq<string>, sibling: string)
    requires up != [] && StartsWith(sibling, "server-data")
    ensures StartsWith(Render(up + [sibling]), Render(up + ["server-data"]))
  {
    var rest := sibling[|"server-data"|..];
    assert Render(up + [sibling]) == Render(up + ["server-data"]) + rest by {
      RenderSibling(up, sibling, "server-data");
      assert sibling == "server-data" + rest;
    }
    StartsWithAppend(Render(up + ["server-data"]), rest);
  }

  /** The character-prefix test admits every sibling of the data directory
      whose name extends `server-data` (`server-data-old`, say):
      `server-data/../server-data-old` resolves to
      `<cwd>/public/server-data-old`, outside the data directory, and passes. */
  lemma SiblingPassesGuard(cwd: seq<string>, sibling: string)
    requires IsPlainSegment(sibling) && !IsWhitespace(sibling[|sibling| - 1])
    requires StartsWith(sibling, "server-data") && sibling != "server-data"
    ensures var normalized := NormalizeDirectoryPath(ServerRootDir + "../" + sibling);
            && ResolvedTarget(cwd, normalized) == cwd + ["public", sibling]
            && PassesGuard(cwd, normalized)
            && !WithinRoot(cwd, normalized)
  {
    var up := cwd + ["public"];
    assert ServerDataRoot(cwd) == up + ["server-data"] && cwd + ["public", sibling] == up + [sibling];
    SiblingResolvesBeside(cwd, sibling);
    SiblingRenderExtends(up, sibling);
    assert (up + [sibling])[|up|] != (up + ["server-data"])[|up|];
  }

  lemma SplitClimbingRequest(name: string)
    requires IsPlainSegment(name)
    ensures Split(RelativePart(ServerRootDir + ("./" + ("../" + name)) + "/")) == [".", "..", name, ""]
  {
    var normalized := ServerRootDir + ("./" + ("../" + name)) + "/";
    assert normalized[..|ServerRootDir|] == ServerRootDir;
    assert normalized[|normalized| - 1..] == "/";
    var rel := RelativePart(normalized);
    assert rel == "." + "/" + (".." + "/" + (name + "/" + ""));
    SplitAround(".", ".." + "/" + (name + "/" + ""));
    SplitAround("..", name + "/" + "");
    SplitAround(name, "");
    SplitOfPlain(".");
    SplitOfPlain("..");
    SplitOfPlain(name);
    SplitOfPlain("");
  }

  /** `.` then `..` from the data directory, then `name`, lands beside it. */
  lemma ResolveClimbing(cwd: seq<string>, name: string)
    requires IsPlainSegment(name)
    ensures Normalize(ServerDataRoot(cwd), [".", "..", name, ""], false) == cwd + ["public", name]
  {
    var segs := [".", "..", name, ""];
    assert segs[1..] == ["..", name, ""];
    assert Normalize(ServerDataRoot(cwd), segs, false) == Normalize(ServerDataRoot(cwd), ["..", name, ""], false);
    ResolveBeside(cwd, name);
  }

  /** A request that climbs out of the data directory (`../../etc`) lands
      in `<cwd>/public/etc`, and the check rejects it whenever the name does
      not start with `server-data` (`SiblingPassesGuard` covers the rest). */
  lemma ClimbingOutFails(cwd: seq<string>, name: string)
    requires IsPlainSegment(name) && !IsWhitespace(name[|name| - 1]) && !StartsWith(name, "server-data")
    ensures var normalized := NormalizeDirectoryPath("../../" + name);
            && ResolvedTarget(cwd, normalized) == cwd + ["public", name]
            && !PassesGuard(cwd, normalized)
  {
    var t := "../" + name;
    var normalized := ServerRootDir + ("./" + t) + "/";
    var up := cwd + ["public"];
    var root := ServerDataRoot(cwd);
    var resolved := up + [name];
    assert resolved == cwd + ["public", name] && root == up + ["server-data"];
    assert "../../" + name == "../" + t by {
      assert "../../" == "../" + "../";
    }
    assert NormalizeDirectoryPath("../" + t) == normalized by {
      assert t[|t| - 1] == name[|name| - 1];
      ParentPrefixBecomesDot(t);
    }
    assert ResolvedTarget(cwd, normalized) == resolved by {
      SplitClimbingRequest(name);
      ResolveClimbing(cwd, name);
    }
    assert !StartsWith(Render(resolved), Render(root)) by {
      RenderSibling(up, name, "server-data");
      StartsWithCancel(Render(up) + "/", name, "server-data");
    }
  }
}
