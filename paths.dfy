/** The POSIX behaviour of the `os.path` functions the code calls. */
module Paths {
  import opened Strings

  /** `os.path.join(a, b)`: an absolute `b` replaces `a`; otherwise a '/' is put between
      them unless `a` is empty or already ends in one. */
  function Join(a: string, b: string): string
  {
    if b != [] && b[0] == '/' then b
    else if a == [] || a[|a| - 1] == '/' then a + b
    else a + "/" + b
  }

  /** An absolute `b` is the joined path; otherwise the joined path starts with `a`, ends with
      `b`, has a '/' just before `b` when `a` is non-empty, and adds that '/' only when `a`
      does not already end in one. */
  lemma JoinLayout(a: string, b: string)
    ensures b != [] && b[0] == '/' ==> Join(a, b) == b
    ensures !(b != [] && b[0] == '/') ==>
      var r := Join(a, b);
      && |a| + |b| <= |r| <= |a| + |b| + 1
      && r[..|a|] == a && r[|r| - |b|..] == b
      && (a != [] ==> r[|r| - |b| - 1] == '/')
      && (a == [] || a[|a| - 1] == '/' ==> |r| == |a| + |b|)
  {
  }

  /** `os.path.basename(p)`: everything after the last '/'. */
  function Basename(p: string): (r: string)
    ensures '/' !in r
    ensures |r| <= |p| && p[|p| - |r|..] == r
    ensures |r| < |p| ==> p[|p| - |r| - 1] == '/'
  {
    p[RFind(p, '/') + 1..]
  }

  /** The last path component of `x` holds a character other than '.', so that `splitext`
      reads a ".ext" appended to `x` as an extension rather than as a hidden file's name. */
  predicate HasStem(x: string)
  {
    exists j | RFind(x, '/') < j < |x| :: x[j] != '.'
  }

  /** An extension as `splitext` returns it: a dot, then neither dots nor slashes. */
  predicate IsExtension(ext: string)
  {
    ext != [] && ext[0] == '.' && '.' !in ext[1..] && '/' !in ext
  }

  /** `os.path.splitext(p)`: the extension starts at the last '.', provided that dot lies in
      the last path component and is preceded there by something other than dots. */
  function SplitExt(p: string): (r: (string, string))
    ensures r.0 + r.1 == p
    ensures r.1 == [] || IsExtension(r.1)
    ensures r.1 != [] ==> HasStem(r.0)
  {
    var sep := RFind(p, '/');
    var dot := RFind(p, '.');
    if sep < dot && exists j | sep < j < dot :: p[j] != '.' then
      RFindPrefix(p, dot, '/');
      (p[..dot], p[dot..])
    else (p, [])
  }

  /** Characters appended without another `c` leave the last `c` where it was. */
  lemma {:induction false} RFindAppendFree(s: string, t: string, c: char)
    requires c !in t
    ensures RFind(s + t, c) == RFind(s, c)
  {
    if t == [] {
      assert s + t == s;
    } else {
      assert (s + t)[..|s + t| - 1] == s + t[..|t| - 1];
      RFindAppendFree(s, t[..|t| - 1], c);
    }
  }

  /** Cutting `p` after its last `c` keeps that `c` the last one. */
  lemma RFindPrefix(p: string, k: int, c: char)
    requires RFind(p, c) < k <= |p|
    ensures RFind(p[..k], c) == RFind(p, c)
  {
    assert p == p[..k] + p[k..];
    RFindAppendFree(p[..k], p[k..], c);
  }

  /** `splitext` splits off exactly an extension appended to a name that has a stem. */
  lemma SplitExtOfAppended(x: string, ext: string)
    requires HasStem(x) && IsExtension(ext)
    ensures SplitExt(x + ext) == (x, ext)
  {
    var p := x + ext;
    assert p == (x + ext[..1]) + ext[1..];
    RFindAppendFree(x + ext[..1], ext[1..], '.');
    RFindAppendFree(x, ext, '/');
    var j :| RFind(x, '/') < j < |x| && x[j] != '.';
    assert p[j] != '.';
    assert p[..|x|] == x;
  }

  /** A name has extension `ext` exactly when it is a name with a stem followed by `ext`. */
  lemma SplitExtIff(p: string, ext: string)
    requires IsExtension(ext)
    ensures SplitExt(p).1 == ext <==> EndsWith(p, ext) && HasStem(p[..|p| - |ext|])
  {
    if EndsWith(p, ext) && HasStem(p[..|p| - |ext|]) {
      assert p == p[..|p| - |ext|] + ext;
      SplitExtOfAppended(p[..|p| - |ext|], ext);
    }
    if SplitExt(p).1 == ext {
      assert p[..|p| - |ext|] == SplitExt(p).0;
    }
  }

  /** The base name of `a` joined with a file name is that file name. */
  lemma BasenameOfJoin(a: string, b: string)
    requires b != [] && '/' !in b
    ensures Basename(Join(a, b)) == b
  {
    var j := Join(a, b);
    var sep := if a == [] then [] else if a[|a| - 1] == '/' then a else a + "/";
    assert j == sep + b;
    RFindAppendFree(sep, b, '/');
    assert sep != [] ==> RFind(sep, '/') == |sep| - 1;
  }

  /** Joining the same directory with two relative names gives two different paths. */
  lemma JoinInjective(a: string, b1: string, b2: string)
    requires (b1 == [] || b1[0] != '/') && (b2 == [] || b2[0] != '/')
    requires Join(a, b1) == Join(a, b2)
    ensures b1 == b2
  {
    var sep := if a == [] || a[|a| - 1] == '/' then a else a + "/";
    assert Join(a, b1) == sep + b1 && Join(a, b2) == sep + b2;
    assert b1 == (sep + b1)[|sep|..];
    assert b2 == (sep + b2)[|sep|..];
  }
}
