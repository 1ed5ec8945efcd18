/**
 * The POSIX flavour of Python's os.path used by the pipeline: basename, dirname,
 * join and splitext, as pure functions on path strings.
 */
module PosixPath {
  import opened Text

  predicate AllSlashes(s: string) {
    forall c <- s :: c == '/'
  }

  /** os.path.basename: the text after the last '/'. */
  function Basename(p: string): (b: string)
    ensures '/' !in b
    ensures EndsWith(p, b)
    ensures |b| < |p| ==> p[|p| - |b| - 1] == '/'
  {
    p[RFind(p, '/') + 1..]
  }

  function TrimSlashesRight(s: string): (r: string)
    ensures |r| <= |s| && r == s[..|r|]
    ensures r == [] || r[|r| - 1] != '/'
    ensures forall k :: |r| <= k < |s| ==> s[k] == '/'
  {
    if s != [] && s[|s| - 1] == '/' then TrimSlashesRight(s[..|s| - 1]) else s
  }

  /**
   * os.path.dirname: everything up to the last '/', with trailing slashes
   * removed unless the head consists of slashes only.
   */
  function Dirname(p: string): (d: string)
    ensures |d| <= |p| && d == p[..|d|]
    ensures d == p <==> AllSlashes(p)
  {
    var i := RFind(p, '/');
    var head := p[..i + 1];
    if head != [] && !AllSlashes(head) then
      var d := TrimSlashesRight(head);
      var k :| 0 <= k < |head| && head[k] != '/';
      assert head[|head| - 1] == '/';
      assert p[k] in p && p[k] != '/';
      d
    else
      assert i + 1 < |p| ==> p[|p| - 1] in p && p[|p| - 1] != '/';
      head
  }

  /** os.path.join(a, b): b itself when absolute, otherwise b appended after one '/'. */
  function Join(a: string, b: string): (r: string)
    ensures StartsWith(b, "/") ==> r == b
    ensures !StartsWith(b, "/") ==> EndsWith(r, b) && StartsWith(r, a)
  {
    if StartsWith(b, "/") then b
    else if a == [] || EndsWith(a, "/") then a + b
    else a + "/" + b
  }

  /**
   * os.path.splitext: (root, ext) with root + ext == p, where ext is the text from
   * the last '.' of the last path component, unless that component consists of
   * dots up to that '.' (a leading-dot name such as ".bashrc" has no extension).
   */
  function SplitExt(p: string): (r: (string, string))
    ensures r.0 + r.1 == p
    ensures r.1 == [] || (r.1[0] == '.' && '/' !in r.1 && '.' !in r.1[1..])
  {
    var sepIndex := RFind(p, '/');
    var dotIndex := RFind(p, '.');
    if dotIndex > sepIndex && exists k :: sepIndex < k < dotIndex && p[k] != '.' then
      assert forall c <- p[dotIndex..] :: c == '.' ==> c == p[dotIndex];
      (p[..dotIndex], p[dotIndex..])
    else
      (p, [])
  }

  /** The last component of a joined path is the relative name that was joined. */
  lemma BasenameOfJoin(dir: string, name: string)
    requires '/' !in name
    ensures Basename(Join(dir, name)) == name
  {
    var j := Join(dir, name);
    var start := |j| - |name|;
    assert name != [] ==> name[0] in name;
    assert j[start..] == name;
    assert forall k :: start <= k < |j| ==> j[k] == name[k - start] && name[k - start] in name;
    assert start > 0 ==> j[start - 1] == '/';
    assert RFind(j, '/') + 1 == start;
  }

  /** The last component of a joined "<stem><ext>" splits back into the stem and the extension. */
  lemma StemOfJoin(dir: string, stem: string, ext: string)
    requires stem != [] && '/' !in stem && stem[|stem| - 1] != '.'
    requires ext != [] && ext[0] == '.' && '.' !in ext[1..] && '/' !in ext
    ensures SplitExt(Basename(Join(dir, stem + ext))) == (stem, ext)
  {
    assert stem[|stem| - 1] in stem;
    assert '/' !in stem + ext by {
      forall k | 0 <= k < |stem + ext|
        ensures (stem + ext)[k] != '/'
      {
        if k < |stem| {
          assert (stem + ext)[k] == stem[k] && stem[k] in stem;
        } else {
          assert (stem + ext)[k] == ext[k - |stem|] && ext[k - |stem|] in ext;
        }
      }
    }
    BasenameOfJoin(dir, stem + ext);
    SplitExtAt(stem, ext);
  }

  /** Joining a relative name and then appending text is joining the longer name. */
  lemma JoinExtended(dir: string, name: string, suffix: string)
    requires name != [] && name[0] != '/'
    ensures Join(dir, name + suffix) == Join(dir, name) + suffix
    ensures var j := Join(dir, name); j != [] && j[|j| - 1] == name[|name| - 1]
  {
    assert (name + suffix)[0] == name[0];
  }

  /** A last component "<name><ext>" with a one-dot extension and a name not ending in '.' splits there. */
  lemma SplitExtAt(head: string, ext: string)
    requires ext != [] && ext[0] == '.' && '.' !in ext[1..] && '/' !in ext
    requires head != [] && head[|head| - 1] != '.' && head[|head| - 1] != '/'
    ensures SplitExt(head + ext) == (head, ext)
  {
    var p := head + ext;
    forall j | |head| < j < |p|
      ensures p[j] != '.' && p[j] != '/'
    {
      assert p[j] == ext[j - |head|] && ext[j - |head|] in ext;
      assert ext[j - |head|] == ext[1..][j - |head| - 1] && ext[1..][j - |head| - 1] in ext[1..];
    }
    RFindAt(p, '.', |head|);
    var sepIndex := RFind(p, '/');
    assert sepIndex < |head| - 1;
    assert p[|head| - 1] != '.';
  }
}
