/** The `os.path` functions the handler uses, with the semantics of CPython's
    `posixpath` module ('/' separates components, '.' starts an extension). */
module PosixPath {
  import opened PyStr

  /** `os.path.basename(p)`: the text after the last '/', which is all of `p`
      when it holds no '/'. */
  function Basename(p: string): (r: string)
    ensures '/' !in r && |r| <= |p| && p[|p| - |r|..] == r
    ensures |r| == |p| || p[|p| - |r| - 1] == '/'
  {
    p[RFind(p, '/') + 1..]
  }

  /** A file name has an extension when some '.' in it comes after a character
      that is not a '.' (so ".bashrc" and "..x" have none). */
  predicate HasExtension(name: string) {
    exists k, d :: 0 <= k < d < |name| && name[k] != '.' && name[d] == '.'
  }

  /** `os.path.splitext(p)`: `(root, ext)` where `ext` runs from the last '.'
      of the last component, unless everything before that '.' in the
      component is '.' too, in which case `ext` is empty. */
  function Splitext(p: string): (r: (string, string))
    ensures r.0 + r.1 == p
    ensures r.1 == [] || r.1[0] == '.'
  {
    var sep := RFind(p, '/');
    var dot := RFind(p, '.');
    if sep < dot && !DotsOnly(p, sep + 1, dot) then (p[..dot], p[dot..]) else (p, [])
  }

  /** Every character of `p` from index `lo` up to, not including, `hi` is '.'. */
  predicate DotsOnly(p: string, lo: int, hi: int) {
    forall k :: 0 <= lo <= k < hi <= |p| ==> p[k] == '.'
  }

  /** `splitext` cuts `p` in two: the extension is empty or a '.' followed
      by text without '.' or '/'. */
  lemma SplitextSpec(p: string)
    ensures var (root, ext) := Splitext(p);
      root + ext == p && (ext == [] || (ext[0] == '.' && '.' !in ext[1..] && '/' !in ext))
  {
    var dot := RFind(p, '.');
    if Splitext(p).1 != [] {
      assert p[dot..][1..] == p[dot + 1..];
    }
  }

  /** `os.path.join(a, b)` for two components: an absolute `b` replaces `a`;
      otherwise a '/' is inserted unless `a` is empty or already ends in one. */
  function Join(a: string, b: string): string {
    if b != [] && b[0] == '/' then b
    else if a == [] || a[|a| - 1] == '/' then a + b
    else a + "/" + b
  }

  /** An absolute `b` is the whole result. A relative `b` follows `a`, with a
      '/' put between them exactly when `a` is not empty and does not already
      end in '/'. */
  lemma JoinSpec(a: string, b: string)
    ensures b != [] && b[0] == '/' ==> Join(a, b) == b
    ensures var r := Join(a, b);
      (b == [] || b[0] != '/') ==>
        && |a| + |b| <= |r| <= |a| + 1 + |b| && r[..|a|] == a && r[|r| - |b|..] == b
        && (a == [] ==> r == b)
        && (a != [] ==> r[|r| - |b| - 1] == '/')
        && (|r| == |a| + 1 + |b| <==> a != [] && a[|a| - 1] != '/')
  {
  }

  /** An extension `splitext` finds lies in the last component. */
  lemma SplitextFoundInBasename(p: string)
    requires Splitext(p).1 != []
    ensures HasExtension(Basename(p))
  {
    var sep := RFind(p, '/');
    var dot := RFind(p, '.');
    var name := Basename(p);
    assert name == p[sep + 1..];
    var i :| 0 <= sep + 1 <= i < dot <= |p| && p[i] != '.';
    assert name[i - sep - 1] == p[i] && name[dot - sep - 1] == p[dot];
    assert 0 <= i - sep - 1 < dot - sep - 1 < |name|;
  }

  /** The positions of a character other than '.' and of a later '.'. */
  lemma ExtensionIndices(name: string) returns (k: int, d: int)
    requires HasExtension(name)
    ensures 0 <= k < d < |name| && name[k] != '.' && name[d] == '.'
  {
    k, d :| 0 <= k < d < |name| && name[k] != '.' && name[d] == '.';
  }

  /** Index `i` of the basename is index `RFind(p, '/') + 1 + i` of `p`. */
  lemma BasenameAt(p: string, i: int)
    requires 0 <= i < |Basename(p)|
    ensures RFind(p, '/') + 1 + i < |p| && p[RFind(p, '/') + 1 + i] == Basename(p)[i]
  {
  }

  /** A character other than '.' followed by a '.' in the last component
      makes `splitext` find an extension. */
  lemma ExtensionAt(p: string, k: int, d: int)
    requires 0 <= k < d && RFind(p, '/') + 1 + d < |p|
    requires p[RFind(p, '/') + 1 + k] != '.' && p[RFind(p, '/') + 1 + d] == '.'
    ensures Splitext(p).1 != []
  {
    var sep := RFind(p, '/');
    var dot := RFind(p, '.');
    assert sep + 1 + d <= dot;
    assert !DotsOnly(p, sep + 1, dot) by {
      assert p[sep + 1 + k] != '.';
    }
  }

  /** An extension of the last component is found by `splitext`. */
  lemma BasenameExtensionFound(p: string)
    requires HasExtension(Basename(p))
    ensures Splitext(p).1 != []
  {
    var k, d := ExtensionIndices(Basename(p));
    BasenameAt(p, k);
    BasenameAt(p, d);
    ExtensionAt(p, k, d);
  }

  /** `splitext` finds an extension exactly when the last component has one. */
  lemma SplitextFindsExtension(p: string)
    ensures Splitext(p).1 != [] <==> HasExtension(Basename(p))
  {
    if Splitext(p).1 != [] {
      SplitextFoundInBasename(p);
    }
    if HasExtension(Basename(p)) {
      BasenameExtensionFound(p);
    }
  }

  /** A name without '/' whose last '.' follows a character other than '.'
      splits at that '.'. */
  lemma SplitextAtLastDot(stem: string, ext: string)
    requires stem != [] && stem[0] != '.'
    requires '/' !in stem && '/' !in ext && '.' !in ext
    ensures Splitext(stem + "." + ext) == (stem, "." + ext)
  {
    var p := stem + "." + ext;
    assert '/' !in p;
    assert p[|stem|] == '.';
    var dot := RFind(p, '.');
    assert dot == |stem|;
    assert RFind(p, '/') == -1;
    assert p[0] == stem[0];
    assert p[..dot] == stem;
    assert p[dot..] == "." + ext;
  }

  /** A name without '/' is its own basename. */
  lemma BasenameOfName(name: string)
    requires '/' !in name
    ensures Basename(name) == name
  {
    assert RFind(name, '/') == -1;
  }
}
