/** The POSIX `os.path` functions the service relies on: `basename` and
    `splitext`. */
module Paths {
  import opened Text

  /** `os.path.basename(p)`: everything after the last `/`. */
  function Basename(p: string): (r: string)
    ensures '/' !in r
    ensures EndsWith(p, r)
    ensures |r| < |p| ==> p[|p| - |r| - 1] == '/'
  {
    var k := LastIndexOf(p, '/');
    var r := p[k + 1..];
    assert |p| - |r| == k + 1;
    assert forall i :: 0 <= i < |r| ==> r[i] != '/' by {
      forall i | 0 <= i < |r| ensures r[i] != '/' {
        assert r[i] == p[k + 1 + i];
      }
    }
    r
  }

  /** The base name is empty exactly when the path is empty or ends in `/`. */
  lemma BasenameEmptyIff(p: string)
    ensures Basename(p) == "" <==> (p == "" || p[|p| - 1] == '/')
  {
  }

  /** The base name of a path with a directory part is its last component. */
  lemma BasenameOfJoin(dir: string, name: string)
    requires '/' !in name
    ensures Basename(dir + "/" + name) == name
  {
    var p := dir + "/" + name;
    assert p[|dir|] == '/';
    forall i | |dir| < i < |p| ensures p[i] != '/' {
      assert p[i] == name[i - |dir| - 1];
    }
    LastIndexOfIs(p, '/', |dir|);
    assert p[|dir| + 1..] == name;
  }

  /** True when the characters strictly between `lo` and `hi` are not all dots. */
  predicate HasNonDotBetween(p: string, lo: int, hi: int)
    requires -1 <= lo && hi <= |p|
  {
    exists i :: lo < i < hi && p[i] != '.'
  }

  /** `os.path.splitext(p)`: the extension runs from the last `.` of the last
      component to the end, unless only dots precede that `.` in the
      component (so a leading dot does not start an extension). */
  function SplitExt(p: string): (parts: (string, string))
    ensures parts.0 + parts.1 == p
    ensures parts.1 == [] || (parts.1[0] == '.' && '.' !in parts.1[1..] && '/' !in parts.1[1..])
  {
    var sepIndex := LastIndexOf(p, '/');
    var dotIndex := LastIndexOf(p, '.');
    if dotIndex > sepIndex && HasNonDotBetween(p, sepIndex, dotIndex) then
      var ext := p[dotIndex..];
      assert forall i :: 0 <= i < |ext| ==> ext[i] == p[dotIndex + i];
      (p[..dotIndex], ext)
    else
      (p, "")
  }

  /** A path has no extension exactly when everything in its last component
      before the last dot is a dot (vacuously so when there is no such dot). */
  lemma NoExtensionIff(p: string)
    ensures SplitExt(p).1 == "" <==>
      forall i :: LastIndexOf(p, '/') < i < LastIndexOf(p, '.') ==> p[i] == '.'
  {
  }

  /** A stem whose last component holds a character other than a dot,
      followed by `.` and a dot-free, slash-free extension, splits there. */
  lemma SplitExtOfStemAndExtension(stem: string, ext: string)
    requires '.' !in ext && '/' !in ext
    requires exists i :: LastIndexOf(stem, '/') < i < |stem| && stem[i] != '.'
    ensures SplitExt(stem + "." + ext) == (stem, "." + ext)
  {
    var p := stem + "." + ext;
    assert p[|stem|] == '.';
    forall i | |stem| < i < |p| ensures p[i] != '.' && p[i] != '/' {
      assert p[i] == ext[i - |stem| - 1];
    }
    LastIndexOfIs(p, '.', |stem|);
    var q := LastIndexOf(stem, '/');
    forall i | q < i < |p| ensures p[i] != '/' {
      if i < |stem| { assert p[i] == stem[i]; }
    }
    LastIndexOfIs(p, '/', q);
    var i :| q < i < |stem| && stem[i] != '.';
    assert p[i] == stem[i];
    assert HasNonDotBetween(p, q, |stem|);
    assert p[..|stem|] == stem;
    assert p[|stem|..] == "." + ext;
  }
}
