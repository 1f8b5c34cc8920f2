/**
 The file locators `find_velodyne_txt_files` and `find_image_files`
 (sync.py:42-61). The directory walk is an input: one entry per directory
 that `os.walk` visits, with the directory path (`root`) and the names of
 the files directly inside it. Each locator keeps the files of directories
 whose path mentions the sensor's folder marker and `data`, whose names carry
 the sensor's extension and do not start with `._`, joins them to their
 directory and returns the joined paths sorted.
 */
module Locator {
  import opened Strings
  import opened Sorting
  import opened PathNames

  /** One step of `os.walk`: a directory and the names of the files in it. */
  datatype WalkEntry = WalkEntry(root: string, files: seq<string>)

  /** Which locator: LiDAR text frames or camera image frames. */
  datatype Sensor = Velodyne | Camera

  function Marker(sensor: Sensor): string
  {
    match sensor
    case Velodyne => "velodyne_points"
    case Camera => "image_02"
  }

  /** The directory test of sync.py:45 and sync.py:57. */
  predicate InDataDir(sensor: Sensor, root: string)
  {
    Contains(root, Marker(sensor)) && Contains(root, "data")
  }

  /**
   The extension test: `.txt`, case-sensitive, for LiDAR (sync.py:47);
   `.png`, `.jpg` or `.jpeg` in any case for images (sync.py:59).
   */
  predicate HasExtension(sensor: Sensor, name: string)
  {
    match sensor
    case Velodyne => EndsWith(name, ".txt")
    case Camera =>
      var low := Lower(name);
      EndsWith(low, ".png") || EndsWith(low, ".jpg") || EndsWith(low, ".jpeg")
  }

  /** The file-name test of sync.py:47 and sync.py:59. */
  predicate Accepts(sensor: Sensor, name: string)
  {
    HasExtension(sensor, name) && !StartsWith(name, "._")
  }

  /** The joined paths the inner loop appends for the files `names` of directory `root`, in order. */
  function Picked(sensor: Sensor, root: string, names: seq<string>): seq<string>
  {
    if names == [] then []
    else
      var last := names[|names| - 1];
      Picked(sensor, root, names[..|names| - 1]) + (if Accepts(sensor, last) then [Join(root, last)] else [])
  }

  /** What one walk entry contributes. */
  function EntryPaths(sensor: Sensor, e: WalkEntry): seq<string>
  {
    if InDataDir(sensor, e.root) then Picked(sensor, e.root, e.files) else []
  }

  /** Every path the outer loop collects, in walk order, before sorting. */
  function Selected(sensor: Sensor, walk: seq<WalkEntry>): seq<string>
  {
    if walk == [] then []
    else Selected(sensor, walk[..|walk| - 1]) + EntryPaths(sensor, walk[|walk| - 1])
  }

  /** What a locator returns: the collected paths, through `sorted`. */
  function Located(sensor: Sensor, walk: seq<WalkEntry>): seq<string>
  {
    Sort(Selected(sensor, walk))
  }

  /** File `k` of walk entry `n` passes both the directory and the name test. */
  ghost predicate Qualifies(sensor: Sensor, walk: seq<WalkEntry>, n: int, k: int)
  {
    && 0 <= n < |walk|
    && 0 <= k < |walk[n].files|
    && InDataDir(sensor, walk[n].root)
    && Accepts(sensor, walk[n].files[k])
  }

  /** `p` is the joined path of a qualifying file of the walk. */
  ghost predicate FoundIn(sensor: Sensor, walk: seq<WalkEntry>, p: string)
  {
    exists n, k :: Qualifies(sensor, walk, n, k) && p == Join(walk[n].root, walk[n].files[k])
  }

  lemma {:induction false} PickedMembers(sensor: Sensor, root: string, names: seq<string>, p: string)
    ensures p in Picked(sensor, root, names) <==>
            exists k :: 0 <= k < |names| && Accepts(sensor, names[k]) && p == Join(root, names[k])
  {
    if names != [] {
      var init := names[..|names| - 1];
      PickedMembers(sensor, root, init, p);
      if p in Picked(sensor, root, names) && p !in Picked(sensor, root, init) {
        assert p == Join(root, names[|names| - 1]);
      }
      if k :| 0 <= k < |names| && Accepts(sensor, names[k]) && p == Join(root, names[k]) {
        if k < |names| - 1 {
          assert init[k] == names[k];
        }
      }
    }
  }

  /** Soundness of the collection loops: every collected path joins a qualifying file to its directory. */
  lemma {:induction false} SelectedSound(sensor: Sensor, walk: seq<WalkEntry>, p: string)
    requires p in Selected(sensor, walk)
    ensures FoundIn(sensor, walk, p)
  {
    var init := walk[..|walk| - 1];
    var e := walk[|walk| - 1];
    if p in Selected(sensor, init) {
      SelectedSound(sensor, init, p);
      var n, k :| Qualifies(sensor, init, n, k) && p == Join(init[n].root, init[n].files[k]);
      assert walk[n] == init[n];
      assert Qualifies(sensor, walk, n, k);
    } else {
      assert p in Picked(sensor, e.root, e.files);
      PickedMembers(sensor, e.root, e.files, p);
      var k :| 0 <= k < |e.files| && Accepts(sensor, e.files[k]) && p == Join(e.root, e.files[k]);
      assert Qualifies(sensor, walk, |walk| - 1, k);
    }
  }

  /** Completeness of the collection loops: the joined path of every qualifying file is collected. */
  lemma {:induction false} SelectedComplete(sensor: Sensor, walk: seq<WalkEntry>, n: int, k: int)
    requires Qualifies(sensor, walk, n, k)
    ensures Join(walk[n].root, walk[n].files[k]) in Selected(sensor, walk)
  {
    var init := walk[..|walk| - 1];
    var e := walk[|walk| - 1];
    if n < |walk| - 1 {
      assert walk[n] == init[n];
      assert Qualifies(sensor, init, n, k);
      SelectedComplete(sensor, init, n, k);
    } else {
      PickedMembers(sensor, e.root, e.files, Join(e.root, e.files[k]));
    }
  }

  /**
   What the locators promise (sync.py:44-49, 56-61): a path is returned
   exactly when it joins a qualifying file to its directory.
   */
  lemma LocatedMembers(sensor: Sensor, walk: seq<WalkEntry>, p: string)
    ensures p in Located(sensor, walk) <==> FoundIn(sensor, walk, p)
  {
    assert p in Located(sensor, walk) <==> p in multiset(Selected(sensor, walk));
    if p in Selected(sensor, walk) {
      SelectedSound(sensor, walk, p);
    }
    if FoundIn(sensor, walk, p) {
      var n, k :| Qualifies(sensor, walk, n, k) && p == Join(walk[n].root, walk[n].files[k]);
      SelectedComplete(sensor, walk, n, k);
    }
  }

  lemma {:induction false} SelectedConcat(sensor: Sensor, a: seq<WalkEntry>, b: seq<WalkEntry>)
    ensures Selected(sensor, a + b) == Selected(sensor, a) + Selected(sensor, b)
  {
    if b != [] {
      assert (a + b)[..|a + b| - 1] == a + b[..|b| - 1];
      SelectedConcat(sensor, a, b[..|b| - 1]);
    } else {
      assert a + b == a;
    }
  }

  lemma RemoveOne<T>(w1: seq<T>, w2: seq<T>, j: nat)
    requires multiset(w1) == multiset(w2) && w1 != []
    requires j < |w2| && w2[j] == w1[|w1| - 1]
    ensures w2 == w2[..j] + [w2[j]] + w2[j + 1..]
    ensures multiset(w1[..|w1| - 1]) == multiset(w2[..j] + w2[j + 1..])
  {
    var e := w2[j];
    assert w1 == w1[..|w1| - 1] + [e];
    assert w2 == w2[..j] + [e] + w2[j + 1..];
    assert multiset(w1) == multiset(w1[..|w1| - 1]) + multiset{e};
    assert multiset(w2) == multiset(w2[..j]) + multiset{e} + multiset(w2[j + 1..]);
    assert multiset(w2[..j] + w2[j + 1..]) == multiset(w2[..j]) + multiset(w2[j + 1..]);
    assert multiset(w1[..|w1| - 1]) == multiset(w1) - multiset{e};
    assert multiset(w2[..j]) + multiset(w2[j + 1..]) == multiset(w2) - multiset{e};
  }

  /**
   The locators' result does not depend on the order in which `os.walk`
   visits directories: any reordering of the walk gives the same list.
   */
  lemma {:induction false} LocatedIgnoresWalkOrder(sensor: Sensor, w1: seq<WalkEntry>, w2: seq<WalkEntry>)
    requires multiset(w1) == multiset(w2)
    ensures Located(sensor, w1) == Located(sensor, w2)
  {
    SelectedPermutation(sensor, w1, w2);
    SortedUnique(Located(sensor, w1), Located(sensor, w2));
  }

  lemma {:induction false} SelectedPermutation(sensor: Sensor, w1: seq<WalkEntry>, w2: seq<WalkEntry>)
    requires multiset(w1) == multiset(w2)
    ensures multiset(Selected(sensor, w1)) == multiset(Selected(sensor, w2))
    decreases |w1|
  {
    if w1 == [] {
      assert |w2| == |multiset(w2)| == 0;
    } else {
      var init := w1[..|w1| - 1];
      var e := w1[|w1| - 1];
      assert e in multiset(w2) by { assert e in multiset(w1); }
      var j :| 0 <= j < |w2| && w2[j] == e;
      var before, after := w2[..j], w2[j + 1..];
      RemoveOne(w1, w2, j);
      SelectedPermutation(sensor, init, before + after);
      var sb, sa, se := Selected(sensor, before), Selected(sensor, after), EntryPaths(sensor, e);
      SelectedConcat(sensor, before, after);
      SelectedAround(sensor, before, e, after);
      assert w2 == before + [e] + after;
      assert Selected(sensor, w1) == Selected(sensor, init) + se;
      MultisetShuffle(sb, se, sa);
    }
  }

  lemma MultisetShuffle(sb: seq<string>, se: seq<string>, sa: seq<string>)
    ensures multiset(sb + se + sa) == multiset(sb + sa) + multiset(se)
  {
    assert multiset(sb + se + sa) == multiset(sb) + multiset(se) + multiset(sa);
    assert multiset(sb + sa) == multiset(sb) + multiset(sa);
  }

  lemma {:induction false} PickedConcat(sensor: Sensor, root: string, a: seq<string>, b: seq<string>)
    ensures Picked(sensor, root, a + b) == Picked(sensor, root, a) + Picked(sensor, root, b)
  {
    if b != [] {
      assert (a + b)[..|a + b| - 1] == a + b[..|b| - 1];
      PickedConcat(sensor, root, a, b[..|b| - 1]);
    } else {
      assert a + b == a;
    }
  }

  /** Reordering the file names of one directory permutes the paths collected from it. */
  lemma {:induction false} PickedPermutation(sensor: Sensor, root: string, f1: seq<string>, f2: seq<string>)
    requires multiset(f1) == multiset(f2)
    ensures multiset(Picked(sensor, root, f1)) == multiset(Picked(sensor, root, f2))
    decreases |f1|
  {
    if f1 == [] {
      assert |f2| == |multiset(f2)| == 0;
    } else {
      var init := f1[..|f1| - 1];
      var x := f1[|f1| - 1];
      assert f1 == init + [x];
      assert x in multiset(f2) by { assert x in multiset(f1); }
      var j :| 0 <= j < |f2| && f2[j] == x;
      var before, after := f2[..j], f2[j + 1..];
      RemoveOne(f1, f2, j);
      PickedPermutation(sensor, root, init, before + after);
      var pb, pa, px := Picked(sensor, root, before), Picked(sensor, root, after), Picked(sensor, root, [x]);
      PickedConcat(sensor, root, before, after);
      PickedAround(sensor, root, before, x, after);
      PickedConcat(sensor, root, init, [x]);
      MultisetShuffle(pb, px, pa);
    }
  }

  lemma PickedAround(sensor: Sensor, root: string, before: seq<string>, x: string, after: seq<string>)
    ensures Picked(sensor, root, before + [x] + after)
         == Picked(sensor, root, before) + Picked(sensor, root, [x]) + Picked(sensor, root, after)
  {
    PickedConcat(sensor, root, before, [x]);
    PickedConcat(sensor, root, before + [x], after);
  }

  /**
   `w2` is `w1` with the files of each directory possibly listed in another
   order, as `os.walk` may deliver them.
   */
  ghost predicate SameUpToFileOrder(w1: seq<WalkEntry>, w2: seq<WalkEntry>)
  {
    && |w1| == |w2|
    && forall n :: 0 <= n < |w1| ==> w1[n].root == w2[n].root && multiset(w1[n].files) == multiset(w2[n].files)
  }

  lemma {:induction false} SelectedFilePermutation(sensor: Sensor, w1: seq<WalkEntry>, w2: seq<WalkEntry>)
    requires SameUpToFileOrder(w1, w2)
    ensures multiset(Selected(sensor, w1)) == multiset(Selected(sensor, w2))
  {
    if w1 != [] {
      var n := |w1| - 1;
      assert SameUpToFileOrder(w1[..n], w2[..n]);
      SelectedFilePermutation(sensor, w1[..n], w2[..n]);
      PickedPermutation(sensor, w1[n].root, w1[n].files, w2[n].files);
      assert multiset(EntryPaths(sensor, w1[n])) == multiset(EntryPaths(sensor, w2[n]));
      assert multiset(Selected(sensor, w1)) == multiset(Selected(sensor, w1[..n])) + multiset(EntryPaths(sensor, w1[n]));
      assert multiset(Selected(sensor, w2)) == multiset(Selected(sensor, w2[..n])) + multiset(EntryPaths(sensor, w2[n]));
    }
  }

  /**
   The locators' result does not depend on the order in which `os.walk`
   lists the files of a directory either.
   */
  lemma LocatedIgnoresFileOrder(sensor: Sensor, w1: seq<WalkEntry>, w2: seq<WalkEntry>)
    requires SameUpToFileOrder(w1, w2)
    ensures Located(sensor, w1) == Located(sensor, w2)
  {
    SelectedFilePermutation(sensor, w1, w2);
    SortedUnique(Located(sensor, w1), Located(sensor, w2));
  }

  /** What a walk collects around one entry `e`. */
  lemma SelectedAround(sensor: Sensor, before: seq<WalkEntry>, e: WalkEntry, after: seq<WalkEntry>)
    ensures Selected(sensor, before + [e] + after)
         == Selected(sensor, before) + EntryPaths(sensor, e) + Selected(sensor, after)
  {
    assert Selected(sensor, [e]) == EntryPaths(sensor, e) by {
      assert [e][..0] == [];
    }
    SelectedConcat(sensor, before, [e]);
    SelectedConcat(sensor, before + [e], after);
  }

  lemma SelectedStep(sensor: Sensor, walk: seq<WalkEntry>, i: nat)
    requires i < |walk|
    ensures Selected(sensor, walk[..i + 1]) == Selected(sensor, walk[..i]) + EntryPaths(sensor, walk[i])
  {
    assert walk[..i + 1][..i] == walk[..i];
  }

  lemma PickedStep(sensor: Sensor, root: string, names: seq<string>, j: nat)
    requires j < |names|
    ensures Picked(sensor, root, names[..j + 1])
         == Picked(sensor, root, names[..j]) + (if Accepts(sensor, names[j]) then [Join(root, names[j])] else [])
  {
    assert names[..j + 1][..j] == names[..j];
  }

  /**
   The inner loop of sync.py:46-48 (or 58-60): the joined paths of the
   accepted names of one directory, in order.
   */
  method PickFiles(sensor: Sensor, root: string, files: seq<string>) returns (picked: seq<string>)
    ensures picked == Picked(sensor, root, files)
  {
    picked := [];
    for j := 0 to |files|
      invariant picked == Picked(sensor, root, files[..j])
    {
      PickedStep(sensor, root, files, j);
      if Accepts(sensor, files[j]) {
        picked := picked + [Join(root, files[j])];
      }
    }
    assert files[..|files|] == files;
  }

  /** The locators' result is sorted and holds exactly the qualifying paths. */
  lemma LocatedSpec(sensor: Sensor, walk: seq<WalkEntry>)
    ensures Sorted(Located(sensor, walk))
    ensures forall p :: p in Located(sensor, walk) <==> FoundIn(sensor, walk, p)
  {
    forall p ensures p in Located(sensor, walk) <==> FoundIn(sensor, walk, p) {
      LocatedMembers(sensor, walk, p);
    }
  }

  /**
   The common body of both locators: the nested collection loops of
   sync.py:43-48 (or 55-60), then `sorted`.
   */
  method Locate(sensor: Sensor, walk: seq<WalkEntry>) returns (paths: seq<string>)
    ensures paths == Located(sensor, walk)
    ensures Sorted(paths)
    ensures forall p :: p in paths <==> FoundIn(sensor, walk, p)
  {
    var found: seq<string> := [];
    for i := 0 to |walk|
      invariant found == Selected(sensor, walk[..i])
    {
      SelectedStep(sensor, walk, i);
      if InDataDir(sensor, walk[i].root) {
        var picked := PickFiles(sensor, walk[i].root, walk[i].files);
        found := found + picked;
      }
    }
    assert walk[..|walk|] == walk;
    paths := Sort(found);
    LocatedSpec(sensor, walk);
  }

  /** `find_velodyne_txt_files` (sync.py:42-49) over a given walk. */
  method FindVelodyneTxtFiles(walk: seq<WalkEntry>) returns (paths: seq<string>)
    ensures paths == Located(Velodyne, walk)
    ensures Sorted(paths)
    ensures forall p :: p in paths <==> FoundIn(Velodyne, walk, p)
  {
    paths := Locate(Velodyne, walk);
  }

  /** `find_image_files` (sync.py:54-61) over a given walk. */
  method FindImageFiles(walk: seq<WalkEntry>) returns (paths: seq<string>)
    ensures paths == Located(Camera, walk)
    ensures Sorted(paths)
    ensures forall p :: p in paths <==> FoundIn(Camera, walk, p)
  {
    paths := Locate(Camera, walk);
  }

  /**
   The image test accepts a `.png`, `.jpg` or `.jpeg` extension in any mix
   of upper and lower case, whatever the rest of the name is.
   */
  lemma ImageExtensionAnyCase(stem: string, ext: string)
    requires Lower(ext) in {".png", ".jpg", ".jpeg"}
    ensures HasExtension(Camera, stem + ext)
  {
    LowerConcat(stem, ext);
    EndsWithConcat(Lower(stem), Lower(ext));
  }

  /** The LiDAR test takes a lower-case `.txt` only: `.TXT` is rejected. */
  lemma LidarExtensionCase(stem: string)
    ensures HasExtension(Velodyne, stem + ".txt")
    ensures !HasExtension(Velodyne, stem + ".TXT")
  {
    EndsWithConcat(stem, ".txt");
    assert (stem + ".TXT")[|stem| + 1] == 'T';
  }

  /** For instance `.PNG`, `.Jpg` and `.jPeG` are image extensions. */
  lemma ImageExtensionExamples(stem: string)
    ensures HasExtension(Camera, stem + ".PNG")
    ensures HasExtension(Camera, stem + ".Jpg")
    ensures HasExtension(Camera, stem + ".jPeG")
  {
    assert Lower(".PNG") == ".png";
    assert Lower(".Jpg") == ".jpg";
    assert Lower(".jPeG") == ".jpeg";
    ImageExtensionAnyCase(stem, ".PNG");
    ImageExtensionAnyCase(stem, ".Jpg");
    ImageExtensionAnyCase(stem, ".jPeG");
  }

  /**
   Every path a locator returns names a file whose frame identifier is its
   stem: the file name, minus the sensor's extension.
   */
  lemma LocatedKeys(sensor: Sensor, walk: seq<WalkEntry>, n: int, k: int)
    requires Qualifies(sensor, walk, n, k)
    requires '/' !in walk[n].files[k]
    ensures Join(walk[n].root, walk[n].files[k]) in Located(sensor, walk)
    ensures FrameKey(Join(walk[n].root, walk[n].files[k])) == Stem(walk[n].files[k])
  {
    var p := Join(walk[n].root, walk[n].files[k]);
    SelectedComplete(sensor, walk, n, k);
    assert p in multiset(Located(sensor, walk));
    FrameKeyOfJoin(walk[n].root, walk[n].files[k]);
  }
}
