/**
 `synchronize_data` (sync.py:90-97): pair LiDAR and camera frames whose
 file names carry the same frame identifier. Each list becomes a map from
 identifier to path, in which a later path overrides an earlier one with the
 same identifier; the identifiers common to both maps are sorted, and one
 (LiDAR path, image path) pair is emitted per identifier in that order.

 The pairing is written for any identifier function `key`; `sync.py` uses
 `PathNames.FrameKey`, and `Synchronize` and `SynchronizeData` fix it to
 that. Every lemma below holds for every `key`, so in particular for it.
 */
module Synchronizer {
  import opened Strings
  import opened Sorting
  import opened PathNames

  /** The identifiers of a list of paths: `set(...keys())` of sync.py:94. */
  function KeySet(key: string -> string, files: seq<string>): set<string>
  {
    set f | f in files :: key(f)
  }

  /** No path after position `i` has the identifier of `files[i]`. */
  ghost predicate Latest(key: string -> string, files: seq<string>, i: int)
    requires 0 <= i < |files|
  {
    forall j :: i < j < |files| ==> key(files[j]) != key(files[i])
  }

  /** `f` is the last path in `files` whose identifier is `k`. */
  ghost predicate LastWithKey(key: string -> string, files: seq<string>, k: string, f: string)
  {
    exists i :: 0 <= i < |files| && files[i] == f && key(f) == k && Latest(key, files, i)
  }

  /**
   The dict comprehension `{splitext(basename(f))[0]: f for f in files}`
   (sync.py:92-93): every identifier of the list is a key, and it maps to the
   last path in list order that has it.
   */
  function KeyMap(key: string -> string, files: seq<string>): (m: map<string, string>)
    ensures m.Keys == KeySet(key, files)
    ensures forall k :: k in m ==> LastWithKey(key, files, k, m[k])
  {
    if files == [] then map[]
    else
      var m0 := KeyMap(key, files[..|files| - 1]);
      KeyMapExtend(key, files, m0);
      m0[key(files[|files| - 1]) := files[|files| - 1]]
  }

  /** One step of the comprehension: the last path overrides its identifier's entry. */
  lemma KeyMapExtend(key: string -> string, files: seq<string>, m0: map<string, string>)
    requires files != []
    requires m0.Keys == KeySet(key, files[..|files| - 1])
    requires forall k :: k in m0 ==> LastWithKey(key, files[..|files| - 1], k, m0[k])
    ensures var last := files[|files| - 1];
            var m := m0[key(last) := last];
            && m.Keys == KeySet(key, files)
            && forall k :: k in m ==> LastWithKey(key, files, k, m[k])
  {
    var init := files[..|files| - 1];
    var last := files[|files| - 1];
    assert files == init + [last];
    assert KeySet(key, files) == KeySet(key, init) + {key(last)};
    forall k | k in m0 && k != key(last) ensures LastWithKey(key, files, k, m0[k]) {
      var i :| 0 <= i < |init| && init[i] == m0[k] && key(m0[k]) == k && Latest(key, init, i);
      assert files[i] == init[i];
      assert Latest(key, files, i);
    }
    assert Latest(key, files, |files| - 1);
  }

  /**
   Last write wins (sync.py:92-93): the entry of an identifier is the path at
   its last position in the list.
   */
  lemma KeyMapLastWins(key: string -> string, files: seq<string>, i: int)
    requires 0 <= i < |files| && Latest(key, files, i)
    ensures KeyMap(key, files)[key(files[i])] == files[i]
  {
    var k := key(files[i]);
    assert k in KeySet(key, files);
    var m := KeyMap(key, files);
    var i' :| 0 <= i' < |files| && files[i'] == m[k] && key(files[i']) == k && Latest(key, files, i');
    assert i == i';
  }

  /** The identifiers of `files` that are also in `keep`, in list order, with repeats. */
  function KeysIn(key: string -> string, files: seq<string>, keep: set<string>): (r: seq<string>)
    ensures Elems(r) == KeySet(key, files) * keep
  {
    if files == [] then []
    else
      var init := files[..|files| - 1];
      var last := files[|files| - 1];
      var tail := if key(last) in keep then [key(last)] else [];
      assert files == init + [last];
      assert KeySet(key, files) == KeySet(key, init) + {key(last)};
      assert Elems(KeysIn(key, init, keep) + tail) == Elems(KeysIn(key, init, keep)) + Elems(tail);
      KeysIn(key, init, keep) + tail
  }

  /**
   `sorted(set(lidar.keys()) & set(image.keys()))` (sync.py:94): the common
   identifiers, each once, in ascending order.
   */
  function CommonKeys(key: string -> string, lidarFiles: seq<string>, imageFiles: seq<string>): (r: seq<string>)
    ensures Ascending(r)
    ensures Elems(r) == KeySet(key, lidarFiles) * KeySet(key, imageFiles)
  {
    SortUnique(KeysIn(key, lidarFiles, KeySet(key, imageFiles)))
  }

  lemma CommonKeysInMaps(key: string -> string, lidarFiles: seq<string>, imageFiles: seq<string>)
    ensures var keys := CommonKeys(key, lidarFiles, imageFiles);
            forall t :: 0 <= t < |keys| ==> keys[t] in KeyMap(key, lidarFiles) && keys[t] in KeyMap(key, imageFiles)
  {
    var keys := CommonKeys(key, lidarFiles, imageFiles);
    forall t | 0 <= t < |keys| ensures keys[t] in KeyMap(key, lidarFiles) && keys[t] in KeyMap(key, imageFiles) {
      assert keys[t] in Elems(keys);
    }
  }

  /** One pair per common identifier, in identifier order (sync.py:94-96). */
  function Pairs(key: string -> string, lidarFiles: seq<string>, imageFiles: seq<string>): seq<(string, string)>
  {
    var lidar, image := KeyMap(key, lidarFiles), KeyMap(key, imageFiles);
    var keys := CommonKeys(key, lidarFiles, imageFiles);
    seq(|keys|, n requires 0 <= n < |keys| =>
      assert keys[n] in Elems(keys);
      (lidar[keys[n]], image[keys[n]]))
  }

  /** The synchronized set that `synchronize_data` returns. */
  function Synchronize(lidarFiles: seq<string>, imageFiles: seq<string>): seq<(string, string)>
  {
    Pairs(FrameKey, lidarFiles, imageFiles)
  }

  /**
   The body of `synchronize_data` (sync.py:91-97) for an identifier
   function `key`: the two maps and the sorted common identifiers, then the
   append loop of sync.py:95-96.
   */
  method PairByKey(key: string -> string, lidarFiles: seq<string>, imageFiles: seq<string>) returns (pairs: seq<(string, string)>)
    ensures pairs == Pairs(key, lidarFiles, imageFiles)
  {
    var lidar := KeyMap(key, lidarFiles);
    var image := KeyMap(key, imageFiles);
    var keys := CommonKeys(key, lidarFiles, imageFiles);
    CommonKeysInMaps(key, lidarFiles, imageFiles);
    pairs := [];
    for n := 0 to |keys|
      invariant |pairs| == n
      invariant forall t :: 0 <= t < n ==> pairs[t] == (lidar[keys[t]], image[keys[t]])
    {
      pairs := pairs + [(lidar[keys[n]], image[keys[n]])];
    }
  }

  /** `synchronize_data(lidar_files, image_files)` (sync.py:90-97). */
  method SynchronizeData(lidarFiles: seq<string>, imageFiles: seq<string>) returns (pairs: seq<(string, string)>)
    ensures pairs == Synchronize(lidarFiles, imageFiles)
  {
    pairs := PairByKey(FrameKey, lidarFiles, imageFiles);
  }


  /** The emitted identifiers strictly ascend: sorted and duplicate-free (sync.py:94-96). */
  lemma PairsAscend(key: string -> string, lidarFiles: seq<string>, imageFiles: seq<string>)
    ensures var r := Pairs(key, lidarFiles, imageFiles);
            forall a, b :: 0 <= a < b < |r| ==> Less(key(r[a].0), key(r[b].0))
  {
    var r := Pairs(key, lidarFiles, imageFiles);
    var keys := CommonKeys(key, lidarFiles, imageFiles);
    forall n | 0 <= n < |r| ensures key(r[n].0) == keys[n] {
      assert keys[n] in Elems(keys);
    }
  }

  /**
   Every pair joins a LiDAR path and an image path of the same identifier,
   each drawn from its own input list (sync.py:92-93, 96).
   */
  lemma PairsShareKey(key: string -> string, lidarFiles: seq<string>, imageFiles: seq<string>)
    ensures var r := Pairs(key, lidarFiles, imageFiles);
            forall n :: 0 <= n < |r| ==>
              && key(r[n].0) == key(r[n].1)
              && r[n].0 in lidarFiles
              && r[n].1 in imageFiles
  {
    var r := Pairs(key, lidarFiles, imageFiles);
    var keys := CommonKeys(key, lidarFiles, imageFiles);
    forall n | 0 <= n < |r|
      ensures key(r[n].0) == key(r[n].1) && r[n].0 in lidarFiles && r[n].1 in imageFiles
    {
      assert keys[n] in Elems(keys);
    }
  }

  /** An identifier is emitted exactly when both lists have it (sync.py:94). */
  lemma PairsCoverCommonKeys(key: string -> string, lidarFiles: seq<string>, imageFiles: seq<string>, k: string)
    ensures var r := Pairs(key, lidarFiles, imageFiles);
            (exists n :: 0 <= n < |r| && key(r[n].0) == k) <==> k in KeySet(key, lidarFiles) && k in KeySet(key, imageFiles)
  {
    var r := Pairs(key, lidarFiles, imageFiles);
    var keys := CommonKeys(key, lidarFiles, imageFiles);
    if k in KeySet(key, lidarFiles) && k in KeySet(key, imageFiles) {
      assert k in Elems(keys);
      var n :| 0 <= n < |keys| && keys[n] == k;
      assert key(r[n].0) == k;
    }
    if n :| 0 <= n < |r| && key(r[n].0) == k {
      assert keys[n] in Elems(keys);
    }
  }

  /**
   There are as many pairs as identifiers common to both lists
   (sync.py:92-96).
   */
  lemma PairCount(key: string -> string, lidarFiles: seq<string>, imageFiles: seq<string>)
    ensures |Pairs(key, lidarFiles, imageFiles)| == |KeySet(key, lidarFiles) * KeySet(key, imageFiles)|
  {
    AscendingCard(CommonKeys(key, lidarFiles, imageFiles));
  }

  /**
   Of several paths with one identifier, the pair carries the last one in
   list order (sync.py:92-93).
   */
  lemma PairsUseLastPaths(key: string -> string, lidarFiles: seq<string>, imageFiles: seq<string>, n: int)
    requires 0 <= n < |Pairs(key, lidarFiles, imageFiles)|
    ensures var r := Pairs(key, lidarFiles, imageFiles);
            && LastWithKey(key, lidarFiles, key(r[n].0), r[n].0)
            && LastWithKey(key, imageFiles, key(r[n].1), r[n].1)
  {
    var keys := CommonKeys(key, lidarFiles, imageFiles);
    assert keys[n] in Elems(keys);
  }

  /**
   A LiDAR path shadowed by a later path with the same identifier appears in
   no pair (sync.py:92).
   */
  lemma ShadowedLidarDropped(key: string -> string, lidarFiles: seq<string>, imageFiles: seq<string>, a: int, b: int)
    requires 0 <= a < b < |lidarFiles| && Latest(key, lidarFiles, b)
    requires key(lidarFiles[a]) == key(lidarFiles[b]) && lidarFiles[a] != lidarFiles[b]
    ensures var r := Pairs(key, lidarFiles, imageFiles);
            forall n :: 0 <= n < |r| ==> r[n].0 != lidarFiles[a]
  {
    var r := Pairs(key, lidarFiles, imageFiles);
    forall n | 0 <= n < |r| ensures r[n].0 != lidarFiles[a] {
      PairsUseLastPaths(key, lidarFiles, imageFiles, n);
      if key(r[n].0) == key(lidarFiles[b]) {
        UniqueLast(key, lidarFiles, b, r[n].0);
      }
    }
  }

  /** The same for an image path shadowed by a later one (sync.py:93). */
  lemma ShadowedImageDropped(key: string -> string, lidarFiles: seq<string>, imageFiles: seq<string>, a: int, b: int)
    requires 0 <= a < b < |imageFiles| && Latest(key, imageFiles, b)
    requires key(imageFiles[a]) == key(imageFiles[b]) && imageFiles[a] != imageFiles[b]
    ensures var r := Pairs(key, lidarFiles, imageFiles);
            forall n :: 0 <= n < |r| ==> r[n].1 != imageFiles[a]
  {
    var r := Pairs(key, lidarFiles, imageFiles);
    forall n | 0 <= n < |r| ensures r[n].1 != imageFiles[a] {
      PairsUseLastPaths(key, lidarFiles, imageFiles, n);
      if key(r[n].1) == key(imageFiles[b]) {
        UniqueLast(key, imageFiles, b, r[n].1);
      }
    }
  }

  /** A path at the last position of its identifier is the only last path with that identifier. */
  lemma UniqueLast(key: string -> string, files: seq<string>, b: int, p: string)
    requires 0 <= b < |files| && Latest(key, files, b)
    requires LastWithKey(key, files, key(files[b]), p)
    ensures p == files[b]
  {
    var i :| 0 <= i < |files| && files[i] == p && key(p) == key(files[b]) && Latest(key, files, i);
    assert i == b;
  }

  /** An empty list, or lists with no identifier in common, give no pairs (sync.py:94-97). */
  lemma NoCommonKeysNoPairs(key: string -> string, lidarFiles: seq<string>, imageFiles: seq<string>)
    requires lidarFiles == [] || imageFiles == [] || KeySet(key, lidarFiles) !! KeySet(key, imageFiles)
    ensures Pairs(key, lidarFiles, imageFiles) == []
  {
    var keys := CommonKeys(key, lidarFiles, imageFiles);
    assert Elems(keys) == {};
  }

  /**
   The result depends on the inputs only through their two identifier maps:
   lists that build the same maps, in whatever order, give the same pairs.
   */
  lemma PairsDependOnlyOnMaps(key: string -> string, l1: seq<string>, i1: seq<string>, l2: seq<string>, i2: seq<string>)
    requires KeyMap(key, l1) == KeyMap(key, l2) && KeyMap(key, i1) == KeyMap(key, i2)
    ensures Pairs(key, l1, i1) == Pairs(key, l2, i2)
  {
    assert KeySet(key, l1) == KeySet(key, l2) && KeySet(key, i1) == KeySet(key, i2);
    AscendingUnique(CommonKeys(key, l1, i1), CommonKeys(key, l2, i2));
  }

  /** No two different paths of `files` share an identifier. */
  ghost predicate KeysUnique(key: string -> string, files: seq<string>)
  {
    forall a, b :: 0 <= a < |files| && 0 <= b < |files| && key(files[a]) == key(files[b]) ==> files[a] == files[b]
  }

  /** With one path per identifier, the map does not depend on list order. */
  lemma KeyMapIgnoresOrder(key: string -> string, l1: seq<string>, l2: seq<string>)
    requires multiset(l1) == multiset(l2) && KeysUnique(key, l1)
    ensures KeyMap(key, l1) == KeyMap(key, l2)
  {
    var m1, m2 := KeyMap(key, l1), KeyMap(key, l2);
    assert forall f :: f in l1 <==> f in l2 by {
      forall f ensures f in l1 <==> f in l2 {
        assert f in l1 <==> f in multiset(l1);
        assert f in l2 <==> f in multiset(l2);
      }
    }
    assert KeySet(key, l1) == KeySet(key, l2);
    forall k | k in m1 ensures m1[k] == m2[k] {
      var i1 :| 0 <= i1 < |l1| && l1[i1] == m1[k] && key(m1[k]) == k && Latest(key, l1, i1);
      var i2 :| 0 <= i2 < |l2| && l2[i2] == m2[k] && key(m2[k]) == k && Latest(key, l2, i2);
      assert m2[k] in l1;
    }
  }

  /**
   When each list has one path per identifier, reordering either list does
   not change the result: the output follows identifier order, not
   discovery order.
   */
  lemma PairsIgnoreListOrder(key: string -> string, l1: seq<string>, i1: seq<string>, l2: seq<string>, i2: seq<string>)
    requires multiset(l1) == multiset(l2) && KeysUnique(key, l1)
    requires multiset(i1) == multiset(i2) && KeysUnique(key, i1)
    ensures Pairs(key, l1, i1) == Pairs(key, l2, i2)
  {
    KeyMapIgnoresOrder(key, l1, l2);
    KeyMapIgnoresOrder(key, i1, i2);
    PairsDependOnlyOnMaps(key, l1, i1, l2, i2);
  }

  /**
   The application calls `synchronize_data` only when both lists are
   non-empty and otherwise keeps an empty list (sync.py:104, 114-115); the
   guard never changes the outcome.
   */
  lemma GuardedCallAgrees(lidarFiles: seq<string>, imageFiles: seq<string>)
    ensures (if lidarFiles != [] && imageFiles != [] then Synchronize(lidarFiles, imageFiles) else [])
         == Synchronize(lidarFiles, imageFiles)
  {
    if lidarFiles == [] || imageFiles == [] {
      NoCommonKeysNoPairs(FrameKey, lidarFiles, imageFiles);
    }
  }

  /**
   The frame identifier of `dir/stem.ext`, for an extension such as `.txt`,
   `.png`, `.jpg` or `.jpeg`: one dot, then no dot and no `/`.
   */
  lemma FrameKeyOfFrameFile(dir: string, stem: string, ext: string)
    requires dir == [] || dir[|dir| - 1] == '/'
    requires '/' !in stem && HasNonDot(stem)
    requires ext != [] && ext[0] == '.' && '.' !in ext[1..] && '/' !in ext
    ensures FrameKey(dir + stem + ext) == stem
  {
    assert dir + stem + ext == dir + (stem + ext);
    BasenameOfSuffix(dir, stem + ext);
    StemOfExtended(stem, ext);
  }

  /**
   Frames 1 and 2 of the LiDAR archive against frames 1 and 3 of the camera
   archive give exactly one pair, for frame 1.
   */
  lemma OneCommonFrame()
    ensures var lidarDir, imageDir := "velodyne_points/data/", "image_02/data/";
            var lidar := [lidarDir + "0000000001" + ".txt", lidarDir + "0000000002" + ".txt"];
            var image := [imageDir + "0000000001" + ".png", imageDir + "0000000003" + ".png"];
            Synchronize(lidar, image) == [(lidar[0], image[0])]
  {
    var lidarDir, imageDir := "velodyne_points/data/", "image_02/data/";
    var k1, k2, k3 := "0000000001", "0000000002", "0000000003";
    assert k1[0] != '.' && k2[0] != '.' && k3[0] != '.';
    assert k1[9] != k2[9] && k1[9] != k3[9] && k2[9] != k3[9];
    FrameKeyOfFrameFile(lidarDir, k1, ".txt");
    FrameKeyOfFrameFile(lidarDir, k2, ".txt");
    FrameKeyOfFrameFile(imageDir, k1, ".png");
    FrameKeyOfFrameFile(imageDir, k3, ".png");
    var lidar := [lidarDir + k1 + ".txt", lidarDir + k2 + ".txt"];
    var image := [imageDir + k1 + ".png", imageDir + k3 + ".png"];
    FrameMatch(FrameKey, lidar, image, k1, k2, k3);
  }

  /** Two lists of two frames each, sharing only their first identifier, give one pair. */
  lemma FrameMatch(key: string -> string, lidar: seq<string>, image: seq<string>, k1: string, k2: string, k3: string)
    requires |lidar| == 2 && |image| == 2
    requires key(lidar[0]) == k1 && key(lidar[1]) == k2
    requires key(image[0]) == k1 && key(image[1]) == k3
    requires k1 != k2 && k1 != k3 && k2 != k3
    ensures Pairs(key, lidar, image) == [(lidar[0], image[0])]
  {
    assert KeySet(key, lidar) == {k1, k2};
    assert KeySet(key, image) == {k1, k3};
    var keys := CommonKeys(key, lidar, image);
    assert Elems([k1]) == {k1};
    AscendingUnique(keys, [k1]);
    assert Latest(key, lidar, 0) && Latest(key, image, 0);
    KeyMapLastWins(key, lidar, 0);
    KeyMapLastWins(key, image, 0);
  }
}
