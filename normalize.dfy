/** `normalizeDirectoryPath`: turns the `path` query parameter into the
    canonical virtual path `server-data/…/`. */
module VirtualPath {
  import opened Strings

  /** SERVER_ROOT_DIR, the virtual prefix of every listed path. */
  const ServerRootDir: string := "server-data/"

  /** A virtual path in normal form: under the virtual root, ending in `/`. */
  predicate IsNormalized(s: string) {
    StartsWith(s, ServerRootDir) && EndsWith(s, "/")
  }

  /** `replace(/^\.\/?/, "")`: one leading `.` and, right after it, one `/`. */
  function StripLeadingDot(s: string): (r: string)
    ensures !StartsWith(s, ".") ==> r == s
    ensures StartsWith(s, "./") ==> s == "./" + r
    ensures StartsWith(s, ".") && !StartsWith(s, "./") ==> s == "." + r
  {
    if |s| > 0 && s[0] == '.' then
      if |s| > 1 && s[1] == '/' then s[2..] else s[1..]
    else s
  }

  /** `replace(/^\//, "")`: one leading `/`. */
  function StripLeadingSlash(s: string): (r: string)
    ensures !StartsWith(s, "/") ==> r == s
    ensures StartsWith(s, "/") ==> s == "/" + r
  {
    if |s| > 0 && s[0] == '/' then s[1..] else s
  }

  /** The input after trimming, defaulting and both strips: what the last
      two steps decorate with the prefix and the trailing `/`. */
  function Stripped(input: string): string {
    var t := Trim(input);
    var t' := if t == "" then ServerRootDir else t;
    StripLeadingSlash(StripLeadingDot(t'))
  }

  /** The last two steps: put the virtual root in front unless it is
      already there, then add a trailing `/` unless there is one. */
  function Decorate(s: string): (r: string)
    ensures IsNormalized(r)
    ensures StartsWith(s, ServerRootDir) ==> r == s || r == s + "/"
    ensures !StartsWith(s, ServerRootDir) ==> r == ServerRootDir + s || r == ServerRootDir + s + "/"
    ensures EndsWith(s, "/") ==> r == (if StartsWith(s, ServerRootDir) then s else ServerRootDir + s)
  {
    var prefixed := if StartsWith(s, ServerRootDir) then s else ServerRootDir + s;
    var r := if EndsWith(prefixed, "/") then prefixed else prefixed + "/";
    assert StartsWith(prefixed, ServerRootDir) by {
      if !StartsWith(s, ServerRootDir) { StartsWithAppend(ServerRootDir, s); }
    }
    assert StartsWith(r, ServerRootDir) by {
      if !EndsWith(prefixed, "/") { StartsWithAppend(prefixed, "/"); StartsWithTrans(r, prefixed, ServerRootDir); }
    }
    r
  }

  function NormalizeDirectoryPath(input: string): (r: string)
    ensures IsNormalized(r)
  {
    Decorate(Stripped(input))
  }

  /** A normalised path is left unchanged, and only normalised paths are. */
  lemma {:induction false} FixedPoints(s: string)
    ensures NormalizeDirectoryPath(s) == s <==> IsNormalized(s)
  {
    if IsNormalized(s) {
      assert s[0] == 's' && s[|s| - 1] == '/';
      TrimOfTrimmed(s);
      assert Stripped(s) == s;
    }
  }

  /** Normalisation is idempotent. */
  lemma Idempotent(input: string)
    ensures NormalizeDirectoryPath(NormalizeDirectoryPath(input)) == NormalizeDirectoryPath(input)
  {
    FixedPoints(NormalizeDirectoryPath(input));
  }

  /** The result is exactly the virtual root iff nothing is left after the
      strips, or what is left is the virtual root itself. */
  lemma {:induction false} RootExactly(input: string)
    ensures NormalizeDirectoryPath(input) == ServerRootDir
            <==> Stripped(input) == "" || Stripped(input) == ServerRootDir
  {
    DecoratesToRoot(Stripped(input));
  }

  /** Only the empty string and the virtual root itself decorate to the
      virtual root. */
  lemma DecoratesToRoot(s: string)
    ensures Decorate(s) == ServerRootDir <==> s == "" || s == ServerRootDir
  {
    if Decorate(s) == ServerRootDir && !StartsWith(s, ServerRootDir) {
      assert |ServerRootDir + s| <= |Decorate(s)|;
    }
    if s == "" {
      assert StartsWith(ServerRootDir + s, ServerRootDir);
      assert ServerRootDir + s == ServerRootDir;
    }
  }

  /** A blank or whitespace-only input, and one that strips to nothing
      (`/`, `.`, `./`), all give the virtual root. */
  lemma {:induction false} BlankGivesRoot(input: string)
    requires (forall k :: 0 <= k < |input| ==> IsWhitespace(input[k]))
             || Trim(input) == "/" || Trim(input) == "." || Trim(input) == "./"
    ensures NormalizeDirectoryPath(input) == ServerRootDir
  {
    if forall k :: 0 <= k < |input| ==> IsWhitespace(input[k]) {
      TrimOfBlank(input);
      assert StripLeadingDot(ServerRootDir) == ServerRootDir;
      assert Stripped(input) == ServerRootDir;
    } else {
      assert Stripped(input) == "";
    }
    RootExactly(input);
  }

  /** A path already under the virtual root only gains a trailing `/`. */
  lemma UnderRootGainsSlash(s: string)
    requires StartsWith(s, ServerRootDir) && !IsWhitespace(s[|s| - 1])
    ensures NormalizeDirectoryPath(s) == if EndsWith(s, "/") then s else s + "/"
  {
    assert s[0] == 's';
    TrimOfTrimmed(s);
    assert Stripped(s) == s;
  }

  /** What is left after the strips, when not already under the virtual
      root, is placed under it; a `/` is added only when it is missing. */
  lemma OutsideRootGainsPrefix(input: string, t: string)
    requires Stripped(input) == t && t != "" && !StartsWith(t, ServerRootDir)
    ensures NormalizeDirectoryPath(input) == ServerRootDir + t + (if t[|t| - 1] == '/' then "" else "/")
  {
    DecorateOutside(t);
  }

  lemma DecorateOutside(t: string)
    requires t != "" && !StartsWith(t, ServerRootDir)
    ensures Decorate(t) == ServerRootDir + t + (if t[|t| - 1] == '/' then "" else "/")
  {
    if t[|t| - 1] == '/' {
      assert EndsWith(t, "/") by { assert t[|t| - 1..] == "/"; }
    } else {
      assert !EndsWith(ServerRootDir + t, "/") by {
        assert (ServerRootDir + t)[|ServerRootDir + t| - 1] == t[|t| - 1];
      }
    }
  }

  /** One leading `.` goes, and nothing else, when `.` or a non-`/`
      character follows it. */
  lemma {:induction false} LoneDotStripped(t: string)
    requires t != [] && t[0] != '/' && !IsWhitespace(t[|t| - 1])
    ensures Stripped("." + t) == t
  {
    var s := "." + t;
    assert s[|s| - 1] == t[|t| - 1];
    assert s[1..] == t;
    assert StripLeadingSlash(StripLeadingDot(s)) == t;
    TrimOfTrimmed(s);
  }

  /** A lone leading `.` is stripped too, so `../x` becomes `./x` inside
      the virtual root rather than climbing out of it. */
  lemma ParentPrefixBecomesDot(t: string)
    requires t != [] && t[|t| - 1] != '/' && !IsWhitespace(t[|t| - 1])
    ensures NormalizeDirectoryPath("../" + t) == ServerRootDir + ("./" + t) + "/"
  {
    var u := "./" + t;
    assert "../" + t == "." + u by {
      assert "../" == "." + "./";
    }
    assert Stripped("." + u) == u by {
      assert u[0] == '.' && u[|u| - 1] == t[|t| - 1];
      LoneDotStripped(u);
    }
    assert !StartsWith(u, ServerRootDir) && u[|u| - 1] != '/' by {
      assert u[0] == '.' && ServerRootDir[0] == 's' && u[|u| - 1] == t[|t| - 1];
    }
    OutsideRootGainsPrefix("." + u, u);
  }
}
