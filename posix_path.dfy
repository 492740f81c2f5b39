/** POSIX path handling as the endpoint relies on it: splitting on `/`,
    joining segments, and the segment normalisation behind `path.join`,
    `path.resolve` and `path.posix.join` (`.` and empty segments vanish,
    `..` removes the segment before it). */
module PosixPath {
  import opened Strings

  /** A segment of a canonical path: non-empty, no separator, not `.` or `..`. */
  predicate IsPlainSegment(s: string) {
    s != "" && s != "." && s != ".." && '/' !in s
  }

  predicate IsCanonical(segs: seq<string>) {
    forall i :: 0 <= i < |segs| ==> IsPlainSegment(segs[i])
  }

  /** The pieces of `s` between separators; `|Split(s)| - 1` is the number of `/` in `s`. */
  function Split(s: string): (r: seq<string>)
    ensures |r| >= 1
    ensures forall i :: 0 <= i < |r| ==> '/' !in r[i]
    decreases |s|
  {
    if s == [] then [""]
    else
      var rest := Split(s[1..]);
      if s[0] == '/' then [""] + rest else [[s[0]] + rest[0]] + rest[1..]
  }

  /** The segments joined with `/` between them. */
  function Join(segs: seq<string>): string {
    if segs == [] then ""
    else if |segs| == 1 then segs[0]
    else segs[0] + "/" + Join(segs[1..])
  }

  lemma {:induction false} SplitOfPlain(s: string)
    requires '/' !in s
    ensures Split(s) == [s]
    decreases |s|
  {
    if s != [] {
      SplitOfPlain(s[1..]);
      assert [s[0]] + s[1..] == s;
    }
  }

  lemma {:induction false} SplitAround(a: string, b: string)
    ensures Split(a + "/" + b) == Split(a) + Split(b)
    decreases |a|
  {
    if a == [] {
      assert a + "/" + b == "/" + b;
      assert ("/" + b)[1..] == b;
    } else {
      assert (a + "/" + b)[1..] == a[1..] + "/" + b;
      SplitAround(a[1..], b);
    }
  }

  /** Splitting undoes joining when no segment holds a separator. */
  lemma {:induction false} SplitJoin(segs: seq<string>)
    requires segs != []
    requires forall i :: 0 <= i < |segs| ==> '/' !in segs[i]
    ensures Split(Join(segs)) == segs
    decreases |segs|
  {
    if |segs| == 1 {
      SplitOfPlain(segs[0]);
    } else {
      SplitOfPlain(segs[0]);
      SplitJoin(segs[1..]);
      SplitAround(segs[0], Join(segs[1..]));
    }
  }

  lemma {:induction false} JoinAppend(a: seq<string>, x: string)
    requires a != []
    ensures Join(a + [x]) == Join(a) + "/" + x
    decreases |a|
  {
    if |a| > 1 {
      assert (a + [x])[1..] == a[1..] + [x];
      JoinAppend(a[1..], x);
    }
  }

  /** Joining two non-empty paths puts one `/` between them. */
  lemma {:induction false} JoinConcat(a: seq<string>, b: seq<string>)
    requires a != [] && b != []
    ensures Join(a + b) == Join(a) + "/" + Join(b)
    decreases |a|
  {
    assert (a + b)[0] == a[0] && (a + b)[1..] == a[1..] + b;
    if |a| > 1 {
      JoinConcat(a[1..], b);
    }
  }

  /** Past the first `/`, two strings with separator-free heads agree on a
      prefix only if their heads are the same. */
  lemma HeadsAgree(x: string, y: string, u: string, v: string)
    requires '/' !in x && '/' !in u
    ensures StartsWith(x + "/" + y, u + "/" + v) <==> x == u && StartsWith(y, v)
  {
    var s := x + "/" + y;
    var t := u + "/" + v;
    if |x| < |u| {
      assert s[|x|] == '/' && t[|x|] == u[|x|] && u[|x|] in u;
      DiffersAt(s, t, |x|);
    } else if |u| < |x| {
      assert t[|u|] == '/' && s[|u|] == x[|u|] && x[|u|] in x;
      DiffersAt(s, t, |u|);
    } else {
      if StartsWith(s, t) {
        assert x == s[..|x|] == t[..|u|] == u;
        assert y[..|v|] == s[|x| + 1..|t|] == t[|u| + 1..] == v;
      }
      if x == u && StartsWith(y, v) {
        assert s[..|t|] == u + "/" + y[..|v|];
      }
    }
  }

  /** A prefix without `/` of a join is a prefix of its first segment. */
  lemma JoinHeadPrefix(segs: seq<string>, w: string)
    requires segs != [] && '/' !in w
    ensures StartsWith(Join(segs), w) <==> StartsWith(segs[0], w)
  {
    if |segs| > 1 {
      var j := Join(segs);
      assert j == segs[0] + "/" + Join(segs[1..]);
      if |w| <= |segs[0]| {
        assert j[..|w|] == segs[0][..|w|];
      } else {
        assert j[|segs[0]|] == '/' && w[|segs[0]|] in w;
        DiffersAt(j, w, |segs[0]|);
      }
    }
  }

  /** For canonical paths, `Join(b)` starts with `Join(a)` and a `/`
      exactly when `b` extends `a` by at least one segment. */
  lemma {:induction false} JoinPrefix(a: seq<string>, b: seq<string>)
    requires a != [] && IsCanonical(a) && IsCanonical(b)
    ensures StartsWith(Join(b), Join(a) + "/") <==> |b| > |a| && b[..|a|] == a
    decreases |a|
  {
    var v := if |a| == 1 then "" else Join(a[1..]) + "/";
    assert Join(a) + "/" == a[0] + "/" + v;
    if |b| >= 2 {
      assert StartsWith(Join(b), Join(a) + "/") <==> b[0] == a[0] && StartsWith(Join(b[1..]), v) by {
        assert Join(b) == b[0] + "/" + Join(b[1..]);
        HeadsAgree(b[0], Join(b[1..]), a[0], v);
      }
      if |a| > 1 {
        assert StartsWith(Join(b[1..]), v) <==> |b[1..]| > |a[1..]| && b[1..][..|a[1..]|] == a[1..] by {
          JoinPrefix(a[1..], b[1..]);
        }
        assert |b| > |a| && b[..|a|] == a <==> b[0] == a[0] && |b[1..]| > |a[1..]| && b[1..][..|a[1..]|] == a[1..] by {
          if |b| > |a| {
            assert b[..|a|] == [b[0]] + b[1..][..|a[1..]|];
            assert a == [a[0]] + a[1..];
          }
        }
      } else {
        assert StartsWith(Join(b[1..]), "");
        assert b[..1] == a <==> b[0] == a[0];
      }
    } else if |b| == 1 {
      var t := Join(a) + "/";
      assert t[|a[0]|] == '/';
      assert |a[0]| < |b[0]| ==> b[0][|a[0]|] in b[0];
      DiffersAt(b[0], t, |a[0]|);
    }
  }

  /** One step of node's `normalizeString`: skip `""` and `.`; let `..`
      drop the last segment unless there is none or it is itself `..`, in
      which case a relative path keeps the `..` and an absolute one drops it. */
  function Step(acc: seq<string>, seg: string, aboveRoot: bool): seq<string> {
    if seg == "" || seg == "." then acc
    else if seg == ".." then
      if acc != [] && acc[|acc| - 1] != ".." then acc[..|acc| - 1]
      else if aboveRoot then acc + [".."]
      else acc
    else acc + [seg]
  }

  /** The segment normalisation, applied left to right on top of `acc`.
      `Step` and `Normalize` are specified by the lemmas below:
      `NormalizeAppend`, `NormalizeCanonical`, `NormalizeWithoutDotDot` and
      `NormalizePlain`. */
  function Normalize(acc: seq<string>, segs: seq<string>, aboveRoot: bool): seq<string>
    decreases |segs|
  {
    if segs == [] then acc else Normalize(Step(acc, segs[0], aboveRoot), segs[1..], aboveRoot)
  }

  lemma {:induction false} NormalizeAppend(acc: seq<string>, a: seq<string>, b: seq<string>, aboveRoot: bool)
    ensures Normalize(acc, a + b, aboveRoot) == Normalize(Normalize(acc, a, aboveRoot), b, aboveRoot)
    decreases |a|
  {
    if a == [] {
      assert a + b == b;
    } else {
      assert (a + b)[0] == a[0] && (a + b)[1..] == a[1..] + b;
      NormalizeAppend(Step(acc, a[0], aboveRoot), a[1..], b, aboveRoot);
    }
  }

  /** Absolute normalisation keeps a canonical path canonical. */
  lemma {:induction false} NormalizeCanonical(acc: seq<string>, segs: seq<string>)
    requires IsCanonical(acc)
    requires forall i :: 0 <= i < |segs| ==> '/' !in segs[i]
    ensures IsCanonical(Normalize(acc, segs, false))
    decreases |segs|
  {
    if segs != [] {
      NormalizeCanonical(Step(acc, segs[0], false), segs[1..]);
    }
  }

  /** Without `..`, normalisation only appends the plain segments of the
      input to what it started from. */
  lemma {:induction false} NormalizeWithoutDotDot(acc: seq<string>, segs: seq<string>, aboveRoot: bool)
    requires ".." !in segs
    ensures exists tail :: Normalize(acc, segs, aboveRoot) == acc + tail
    decreases |segs|
  {
    if segs != [] {
      var acc' := Step(acc, segs[0], aboveRoot);
      var t: seq<string> := if segs[0] == "" || segs[0] == "." then [] else [segs[0]];
      assert acc' == acc + t by {
        assert segs[0] == segs[..1][0] && segs[0] != "..";
      }
      assert ".." !in segs[1..] by {
        forall i | 0 <= i < |segs[1..]| ensures segs[1..][i] != ".." { assert segs[1..][i] == segs[i + 1]; }
      }
      NormalizeWithoutDotDot(acc', segs[1..], aboveRoot);
      var tail :| Normalize(acc', segs[1..], aboveRoot) == acc' + tail;
      assert Normalize(acc, segs, aboveRoot) == acc' + tail;
      assert acc' + tail == acc + (t + tail);
    } else {
      assert Normalize(acc, segs, aboveRoot) == acc + [];
    }
  }

  /** Normalising plain segments changes nothing but appends them. */
  lemma {:induction false} NormalizePlain(acc: seq<string>, segs: seq<string>, aboveRoot: bool)
    requires IsCanonical(segs)
    ensures Normalize(acc, segs, aboveRoot) == acc + segs
    decreases |segs|
  {
    if segs != [] {
      NormalizePlain(acc + [segs[0]], segs[1..], aboveRoot);
      assert acc + [segs[0]] + segs[1..] == acc + segs;
    }
  }

  /** The string `path.resolve` returns for an absolute, normalised path. */
  function Render(segs: seq<string>): (r: string)
    ensures StartsWith(r, "/")
  {
    "/" + Join(segs)
  }

  /** Resolving the string `Render` gives, with or without a trailing `/`,
      gives the path back: `path.resolve` of what `path.join` has already
      normalised changes nothing. */
  lemma ResolveRendered(t: seq<string>, trailing: bool)
    requires IsCanonical(t)
    ensures Normalize([], Split(Render(t) + (if trailing then "/" else "")), false) == t
  {
    assert Normalize([], Split(Render(t)), false) == t by {
      assert Render(t) == "" + "/" + Join(t);
      SplitAround("", Join(t));
      SplitOfPlain("");
      if t == [] {
        assert Split(Render(t)) == ["", ""];
        assert Normalize([], ["", ""], false) == Normalize([], [""], false) == Normalize([], [], false);
      } else {
        SplitJoin(t);
        assert Split(Render(t)) == [""] + t;
        assert Normalize([], [""] + t, false) == Normalize([], t, false) by {
          assert ([""] + t)[0] == "" && ([""] + t)[1..] == t;
        }
        NormalizePlain([], t, false);
        assert [] + t == t;
      }
    }
    if trailing {
      assert Split(Render(t) + "/") == Split(Render(t)) + [""] by {
        assert Render(t) + "/" == Render(t) + "/" + "";
        SplitAround(Render(t), "");
        SplitOfPlain("");
      }
      NormalizeAppend([], Split(Render(t)), [""], false);
    } else {
      assert Render(t) + "" == Render(t);
    }
  }

  /** `Render` of a longer path extends `Render` of the shorter one. */
  lemma {:induction false} RenderExtends(a: seq<string>, tail: seq<string>)
    ensures StartsWith(Render(a + tail), Render(a))
    decreases |tail|
  {
    if tail != [] {
      var last := tail[|tail| - 1];
      var init := tail[..|tail| - 1];
      assert a + tail == (a + init) + [last];
      RenderExtends(a, init);
      if a + init != [] {
        JoinAppend(a + init, last);
        assert Render(a + tail) == Render(a + init) + ("/" + last);
        StartsWithAppend(Render(a + init), "/" + last);
        StartsWithTrans(Render(a + tail), Render(a + init), Render(a));
      } else {
        assert a == [] && tail == [last];
        assert Render(a) == "/";
        assert Render(a + tail) == "/" + last;
        StartsWithAppend("/", last);
      }
    } else {
      assert a + tail == a;
    }
  }

  /** `path.posix.normalize` (node): `..` may climb above the start of a
      relative path, a trailing separator survives, and the empty result
      reads `.` (or `./`). */
  function PosixNormalize(p: string): (r: string)
    ensures r != ""
    ensures StartsWith(r, "/") <== StartsWith(p, "/")
    ensures EndsWith(p, "/") ==> EndsWith(r, "/")
  {
    var absolute := StartsWith(p, "/");
    var trailing := EndsWith(p, "/");
    var body := Join(Normalize([], Split(p), !absolute));
    if body == "" then
      if absolute then "/" else if trailing then "./" else "."
    else
      (if absolute then "/" else "") + body + (if trailing then "/" else "")
  }

  /** `path.posix.join(base, name)`: the non-empty arguments joined with `/`
      and normalised. */
  function PosixJoin(base: string, name: string): (r: string)
    ensures r != ""
    ensures base == "" && name == "" ==> r == "."
    ensures StartsWith(base, "/") ==> StartsWith(r, "/")
    ensures name != "" && EndsWith(name, "/") ==> EndsWith(r, "/")
  {
    var joined := base + "/" + name;
    assert StartsWith(base, "/") ==> StartsWith(joined, "/") by {
      StartsWithAppend(base, "/" + name);
      assert joined == base + ("/" + name);
      if StartsWith(base, "/") { StartsWithTrans(joined, base, "/"); }
    }
    assert name != "" ==> joined[|joined| - 1..] == name[|name| - 1..];
    if base == "" && name == "" then "."
    else if base == "" then PosixNormalize(name)
    else if name == "" then PosixNormalize(base)
    else PosixNormalize(joined)
  }
}
