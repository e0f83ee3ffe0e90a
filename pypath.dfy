/** The `os.path` functions of a POSIX system that the scripts use: `basename`, `dirname`,
    `join` and `splitext`, with the directory-walk entries `os.walk` produces. */
module PyPath {
  import opened Wrappers
  import opened PyStr

  /** One step of `os.walk`: a directory and the names of the files directly in it. */
  datatype WalkEntry = WalkEntry(root: string, files: seq<string>)

  /** `os.path.basename(p)`: the text after the last `/`. */
  function Basename(p: string): (b: string)
    ensures '/' !in b
    ensures EndsWith(p, b)
    ensures Contains(p, "/") || b == p
  {
    match LastIndexOf(p, "/")
    case None =>
      NotContainedCharAbsent(p, '/');
      p
    case Some(i) =>
      var b := p[i + 1..];
      CharAbsentFrom(p, '/', i + 1);
      assert Contains(p, "/") by { ContainsIff(p, "/"); }
      b
  }

  /** The part of `p` up to and including its last `/`, or `""` when there is none. */
  function Head(p: string): (h: string)
    ensures StartsWith(p, h)
    ensures h == [] || h[|h| - 1] == '/'
    ensures h + Basename(p) == p
  {
    match LastIndexOf(p, "/")
    case None => ""
    case Some(i) =>
      assert p[i..i + 1] == "/";
      assert p[..i + 1] + p[i + 1..] == p;
      p[..i + 1]
  }

  predicate AllSlashes(s: string) { forall i :: 0 <= i < |s| ==> s[i] == '/' }

  /** `os.path.dirname(p)`: the head without its trailing slashes, unless the head is made of
      slashes only. */
  function Dirname(p: string): (d: string)
    ensures StartsWith(p, d)
    ensures |d| < |p| || d == p == "" || AllSlashes(p)
  {
    var h := Head(p);
    if h != [] && !AllSlashes(h) then RStripChar(h, '/') else h
  }

  /** `os.path.join(a, b)`: an absolute `b` replaces `a`; otherwise a `/` is put between them
      unless `a` is empty or already ends with one. */
  function Join(a: string, b: string): (r: string)
    ensures StartsWith(b, "/") ==> r == b
    ensures !StartsWith(b, "/") ==> EndsWith(r, b) && StartsWith(r, a)
  {
    if StartsWith(b, "/") then b
    else if a == [] || a[|a| - 1] == '/' then a + b
    else a + "/" + b
  }

  /** `os.path.join(a, b)` for a relative `b`. */
  lemma {:induction false} JoinRelative(a: string, b: string)
    requires b != [] && b[0] != '/'
    ensures Join(a, b) == (if a == [] || a[|a| - 1] == '/' then a else a + "/") + b
  {
    assert !StartsWith(b, "/") by { assert b[..1][0] == b[0]; }
  }

  /** `os.path.join(p[0], p[1], ...)`. */
  function JoinAll(a: string, ps: seq<string>): string
    decreases |ps|
  {
    if ps == [] then a else JoinAll(Join(a, ps[0]), ps[1..])
  }

  /** Position of the extension dot of the last component (`splitext`): the last `.` after the
      last `/`, provided some character before it in that component is not a `.`. */
  function ExtDot(p: string): (r: Option<nat>)
    ensures r.Some? ==> r.value < |p| && p[r.value] == '.' && '/' !in p[r.value..]
  {
    match LastIndexOf(p, ".")
    case None => None
    case Some(k) =>
      var start := match LastIndexOf(p, "/") case None => 0 case Some(s) => s + 1;
      if start <= k && exists j :: start <= j < k && p[j] != '.' then
        assert p[k..k + 1] == ".";
        CharAbsentFrom(p, '/', k);
        Some(k)
      else None
  }

  /** `os.path.splitext(p)`: root and extension, whose concatenation is `p`. */
  function SplitExt(p: string): (parts: (string, string))
    ensures parts.0 + parts.1 == p
    ensures parts.1 == [] || (parts.1[0] == '.' && '/' !in parts.1)
  {
    match ExtDot(p)
    case None => (p, "")
    case Some(k) =>
      assert p[..k] + p[k..] == p;
      (p[..k], p[k..])
  }

  /** `os.path.splitext(q + e)` for an extension `e` (a dot, then no dot and no slash), when the
      last component of `q` has a character other than a dot. */
  lemma {:induction false} SplitExtOfSuffix(q: string, e: string, j: nat)
    requires e != [] && e[0] == '.' && '.' !in e[1..] && '/' !in e
    requires j < |q| && q[j] != '.' && '/' !in q[j..]
    ensures SplitExt(q + e) == (q, e)
  {
    var p := q + e;
    assert p[|q|..|q| + 1] == ".";
    assert OccursAt(p, ".", |q|);
    forall i | i > |q| ensures !OccursAt(p, ".", i) {
      if i + 1 <= |p| {
        assert p[i..i + 1][0] == e[1..][i - |q| - 1];
      }
    }
    assert LastIndexOf(p, ".") == Some(|q|);
    assert p[j] == q[j];
    assert p[..|q|] == q && p[|q|..] == e;
    forall i | j <= i < |p| ensures p[i] != '/' {
      if i < |q| {
        assert p[i] == q[j..][i - j];
      } else {
        assert p[i] == e[i - |q|];
      }
    }
    match LastIndexOf(p, "/")
    case None =>
    case Some(sl) =>
      assert p[sl..sl + 1][0] == p[sl];
  }

  lemma {:induction false} BasenameOfJoin(a: string, b: string)
    requires b != [] && '/' !in b
    ensures Basename(Join(a, b)) == b
  {
    var r := Join(a, b);
    assert !StartsWith(b, "/") by { assert b[..1][0] == b[0]; }
    var i := |r| - |b| - 1;
    if a == [] {
      assert r == b;
      CharAbsentNotContained(b, '/');
    } else {
      assert r[i] == '/' by {
        if a[|a| - 1] == '/' { assert r == a + b; } else { assert r == a + "/" + b; }
      }
      assert r[i..i + 1] == "/";
      assert OccursAt(r, "/", i);
      forall j | j > i ensures !OccursAt(r, "/", j) {
        if j + 1 <= |r| {
          assert r[j..j + 1][0] == r[j] == b[j - i - 1];
        }
      }
      assert LastIndexOf(r, "/") == Some(i);
      assert r[i + 1..] == b;
    }
  }

  lemma {:induction false} DirnameOfJoin(a: string, b: string)
    requires b != [] && '/' !in b && a != [] && a[|a| - 1] != '/'
    ensures Dirname(Join(a, b)) == a
  {
    var r := Join(a, b);
    assert !StartsWith(b, "/") by { assert b[..1][0] == b[0]; }
    assert r == a + "/" + b;
    BasenameOfJoin(a, b);
    var h := Head(r);
    assert h == a + "/" by {
      assert h + b == r;
      assert |h| == |a| + 1;
      assert h == r[..|a| + 1];
    }
    assert !AllSlashes(h) by { assert h[|a| - 1] == a[|a| - 1]; }
    assert RStripChar(h, '/') == RStripChar(a, '/') by { assert h[..|h| - 1] == a; }
  }

  /** A relative `b` joined to any folder: the result ends with the last character of `b`. */
  lemma {:induction false} JoinLastChar(a: string, b: string)
    requires b != [] && b[0] != '/'
    ensures Join(a, b) != [] && Join(a, b)[|Join(a, b)| - 1] == b[|b| - 1]
  {
    JoinRelative(a, b);
  }

  /** A folder `b` in `a` and a file `c` in it: the file's folder is named `b`, and the folder's
      parent is `a`. */
  lemma {:induction false} JoinTwiceParts(a: string, b: string, c: string)
    requires a != [] && a[|a| - 1] != '/'
    requires b != [] && '/' !in b && c != [] && '/' !in c
    ensures Basename(Dirname(Join(Join(a, b), c))) == b
    ensures Dirname(Join(a, b)) == a
  {
    var d := Join(a, b);
    DirnameOfJoin(a, b);
    BasenameOfJoin(a, b);
    assert !StartsWith(b, "/") by { assert b[..1][0] == b[0]; }
    assert d == a + "/" + b;
    assert d[|d| - 1] == b[|b| - 1];
    DirnameOfJoin(d, c);
  }

  lemma {:induction false} BasenameAfterSlash(a: string, b: string)
    requires b != [] && '/' !in b
    ensures Basename(a + "/" + b) == b
  {
    assert !StartsWith(b, "/") by { assert b[..1][0] == b[0]; }
    assert Join(a + "/", b) == a + "/" + b;
    BasenameOfJoin(a + "/", b);
  }
}
