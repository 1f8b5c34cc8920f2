/**
 POSIX path handling as Python's `posixpath` does it, for the three calls the
 core makes: `os.path.basename`, `os.path.splitext` and `os.path.join`, and
 the frame identifier built from the first two (sync.py, lines 92-93).
 */
module PathNames {
  import opened Strings

  /** `s.rfind(c)`: the index of the last `c` in `s`, or -1. */
  function LastIndexOf(s: string, c: char): (r: int)
    ensures -1 <= r < |s|
  {
    if s == [] then -1
    else if s[|s| - 1] == c then |s| - 1
    else LastIndexOf(s[..|s| - 1], c)
  }

  /** `rfind` finds an occurrence when it reports one, and there is none after it. */
  lemma {:induction false} LastIndexOfSpec(s: string, c: char)
    ensures var r := LastIndexOf(s, c);
            && (r >= 0 ==> s[r] == c)
            && (forall k :: r < k < |s| ==> s[k] != c)
  {
    if s != [] && s[|s| - 1] != c {
      LastIndexOfSpec(s[..|s| - 1], c);
      assert forall k :: 0 <= k < |s| - 1 ==> s[..|s| - 1][k] == s[k];
    }
  }

  /** `os.path.basename(p)`: the text after the last `/`. */
  function Basename(p: string): string
  {
    p[LastIndexOf(p, '/') + 1..]
  }

  /**
   The basename is the longest suffix of the path without a `/`: it holds no
   `/`, and it is either the whole path or preceded by a `/`.
   */
  lemma BasenameSpec(p: string)
    ensures var r := Basename(p);
            && '/' !in r
            && EndsWith(p, r)
            && (|r| < |p| ==> p[|p| - |r| - 1] == '/')
  {
    LastIndexOfSpec(p, '/');
    var r := Basename(p);
    var d := LastIndexOf(p, '/');
    forall k | 0 <= k < |r| ensures r[k] != '/' {
      assert r[k] == p[d + 1 + k];
    }
  }

  predicate HasNonDot(s: string)
  {
    exists k :: 0 <= k < |s| && s[k] != '.'
  }

  /**
   Where `os.path.splitext` cuts a name that holds no `/`: at its last `.`,
   provided some character before that dot is not a dot (leading dots never
   start an extension); otherwise at the end, leaving no extension.
   */
  function ExtStart(name: string): (r: nat)
    ensures r <= |name|
  {
    var d := LastIndexOf(name, '.');
    if d >= 0 && HasNonDot(name[..d]) then d else |name|
  }

  /**
   What `splitext` promises about the cut: a cut before the end is at a dot
   with a non-dot character somewhere before it and no dot after it; no cut
   at all means every dot in the name has only dots before it.
   */
  lemma ExtStartSpec(name: string)
    ensures var r := ExtStart(name);
            && (r < |name| ==> name[r] == '.' && HasNonDot(name[..r]))
            && (forall k :: r < k < |name| ==> name[k] != '.')
            && (r == |name| ==> forall i, k :: 0 <= k < i < |name| && name[i] == '.' ==> name[k] == '.')
  {
    var d := LastIndexOf(name, '.');
    LastIndexOfSpec(name, '.');
    assert forall k :: 0 <= k < d ==> name[..d][k] == name[k];
  }

  /** `os.path.splitext(name)[0]`, for a name without `/` (a basename). */
  function Stem(name: string): string
  {
    name[..ExtStart(name)]
  }

  /** `os.path.splitext(name)[1]`, for a name without `/` (a basename). */
  function Ext(name: string): string
  {
    name[ExtStart(name)..]
  }

  /**
   The frame identifier of a path (sync.py:92-93): its basename without the
   last extension, `os.path.splitext(os.path.basename(f))[0]`.
   */
  function FrameKey(path: string): string
  {
    Stem(Basename(path))
  }

  /** `os.path.join(root, name)` */
  function Join(root: string, name: string): string
  {
    if StartsWith(name, "/") then name
    else if root == [] || EndsWith(root, "/") then root + name
    else root + "/" + name
  }

  /**
   `splitext` splits a name into a stem and an extension that concatenate
   back to it; the extension is empty or a single dot followed by no other
   dot, and the stem is never empty unless the name is.
   */
  lemma SplitExtParts(name: string)
    ensures Stem(name) + Ext(name) == name
    ensures Ext(name) == [] || (Ext(name)[0] == '.' && '.' !in Ext(name)[1..])
    ensures name != [] ==> Stem(name) != []
  {
    var r := ExtStart(name);
    ExtStartSpec(name);
    if r < |name| {
      forall k | 1 <= k < |Ext(name)| ensures Ext(name)[k] != '.' {
        assert Ext(name)[k] == name[r + k];
      }
    }
  }

  /**
   A `/`-free name made of a stem with some non-dot character and an
   extension that is a dot followed by no other dot splits back into
   exactly those two.
   */
  lemma {:induction false} StemOfExtended(stem: string, ext: string)
    requires '/' !in stem && HasNonDot(stem)
    requires ext != [] && ext[0] == '.' && '.' !in ext[1..] && '/' !in ext
    ensures Stem(stem + ext) == stem
    ensures Ext(stem + ext) == ext
  {
    var name := stem + ext;
    var r := ExtStart(name);
    ExtStartSpec(name);
    assert name[|stem|] == '.';
    var k :| 0 <= k < |stem| && stem[k] != '.';
    assert name[k] != '.';
    assert r == |stem|;
    assert name[..|stem|] == stem;
  }

  /** The basename of a path ending in a `/`-free name after a `/` (or alone) is that name. */
  lemma BasenameOfSuffix(dir: string, name: string)
    requires dir == [] || dir[|dir| - 1] == '/'
    requires '/' !in name
    ensures Basename(dir + name) == name
  {
    var p := dir + name;
    var r := Basename(p);
    BasenameSpec(p);
    assert p[|dir|..] == name;
    assert |r| == |name|;
  }

  /** Joining a directory with a `/`-free file name keeps the name as the basename. */
  lemma BasenameOfJoin(root: string, name: string)
    requires '/' !in name
    ensures Basename(Join(root, name)) == name
  {
    assert !StartsWith(name, "/") by {
      if name != [] { assert name[..1] == [name[0]]; }
    }
    if root == [] || EndsWith(root, "/") {
      assert Join(root, name) == root + name;
      BasenameOfSuffix(root, name);
    } else {
      var dir := root + "/";
      assert Join(root, name) == dir + name;
      BasenameOfSuffix(dir, name);
    }
  }

  /**
   The frame identifier of a file found under a directory is the stem of its
   name: for `root/0000000001.txt` it is `0000000001`.
   */
  lemma FrameKeyOfJoin(root: string, name: string)
    requires '/' !in name
    ensures FrameKey(Join(root, name)) == Stem(name)
  {
    BasenameOfJoin(root, name);
  }
}
