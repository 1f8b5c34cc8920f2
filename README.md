# LiDAR / camera frame synchronizer

This project models and proves the core of `sync.py`, a small Streamlit
application. The application unpacks two archives. One holds LiDAR scans as
`velodyne_points/data/*.txt`; the other holds camera frames as
`image_02/data/*.png|jpg|jpeg`. It finds the frame files of each kind and
pairs them by frame identifier, which is a file's name without the directory
and the last extension.

The model has five parts:

- `Strings` holds the Python string tests the code relies on:
  - `startswith`, `endswith` and `in` on strings;
  - ASCII `lower()`;
  - the code-point order that `sorted` uses.
- `Sorting` holds `sorted(list)` and `sorted(set(...))`. Each is proved to
  be sorted and a permutation, or strictly ascending with the same
  elements. Lemmas show that these properties alone fix the result.
- `PathNames` holds the `posixpath` functions `basename`, `splitext` and
  `join`, and the frame identifier `FrameKey` built from the first two.
  `splitext` is modelled on names without a `/`, which is how `FrameKey`
  uses it: only on a basename.
- `Locator` holds the two file locators, `find_velodyne_txt_files` and
  `find_image_files`.
  - Each is an imperative nested loop over the directory walk, which is
    given as a sequence of (directory, file names) entries.
  - Each is proved equal to a functional specification.
  - Each result is proved sorted, and exactly the set of paths of the
    qualifying files.
- `Synchronizer` holds `synchronize_data`, as follows:
  - The two identifier-to-path dictionaries, where the last path wins.
  - The sorted intersection of their keys.
  - The append loop, which is a method proved against the functional
    `Pairs`.
  - Lemmas about `Pairs`: ordering, count, shared keys, last wins,
    empty or disjoint input, and independence of list order.

The synchronizer's lemmas are stated for an arbitrary identifier function
`key`. `Synchronize` and `SynchronizeData` fix `key` to `FrameKey`, as
`sync.py` does, so each lemma holds for the application's identifier too.
`FrameKeyOfFrameFile` and `Locator.LocatedKeys` say what `FrameKey` gives on
the paths the locators return.

## Model

| member | source | states |
|---|---|---|
| Strings.ContainsSpec | sync.py:45 | `sub in s` holds exactly when `sub` occurs at some index of `s` |
| Strings.Lower | sync.py:59 | `lower()` keeps the length of the name |
| Strings.LessTransitive | sync.py:49 | the string order used by `sorted` is transitive |
| Strings.LessTotal | sync.py:49 | any two strings are equal or ordered one way |
| Strings.LessEqAntisymmetric | sync.py:49 | `<=` on strings is antisymmetric |
| Sorting.Sort | sync.py:49 | `sorted(list)` is non-decreasing and a permutation of its input |
| Sorting.SortUnique | sync.py:94 | `sorted(set(...))` is strictly ascending and has exactly the input's elements |
| Sorting.SortedUnique | sync.py:49 | two sorted sequences with the same multiset are equal, so `sorted` has one possible result |
| Sorting.SortedHeadsAgree | sync.py:49 | two sorted sequences with the same multiset start with the same element |
| Sorting.AscendingUnique | sync.py:94 | two strictly ascending sequences with the same elements are equal |
| Sorting.AscendingCard | sync.py:94 | a strictly ascending sequence has as many elements as its length |
| PathNames.LastIndexOfSpec | sync.py:92-93 | the last-occurrence search finds an occurrence and none follows it |
| PathNames.BasenameSpec | sync.py:92-93 | `basename` is the `/`-free suffix of the path, preceded by `/` unless it is the whole path |
| PathNames.ExtStartSpec | sync.py:92-93 | on a `/`-free name, `splitext` cuts at the last dot with a non-dot before it, and not at all if every dot is leading |
| PathNames.SplitExtParts | sync.py:92-93 | on a `/`-free name, stem plus extension gives back the name; the extension is empty or one dot with no other dot; a non-empty name has a non-empty stem |
| PathNames.StemOfExtended | sync.py:92-93 | `splitext(stem + ext)` returns `stem` and `ext` for a `/`-free `stem` with a non-dot character and a `/`-free single-dot extension `ext` |
| PathNames.BasenameOfJoin | sync.py:48 | `basename(join(root, name))` is `name` for a `/`-free name |
| PathNames.FrameKeyOfJoin | sync.py:48 | the frame identifier of `join(root, name)` is the stem of `name` |
| Locator.PickedMembers | sync.py:46-48 | the inner loop collects exactly the joined paths of the accepted file names of a directory |
| Locator.SelectedSound | sync.py:44-48 | every collected path joins a file that passes the directory and name tests to its directory |
| Locator.SelectedComplete | sync.py:44-48 | every file that passes both tests is collected |
| Locator.LocatedMembers | sync.py:42-61 | a path is returned exactly when it joins a qualifying file to its directory |
| Locator.SelectedConcat | sync.py:44 | concatenated walks collect the concatenation of what each collects |
| Locator.SelectedPermutation | sync.py:44-48 | a reordered walk collects the same multiset of paths |
| Locator.LocatedIgnoresWalkOrder | sync.py:44-49 | the locators' results do not depend on the order `os.walk` visits directories |
| Locator.PickedConcat | sync.py:46-48 | the inner loop over concatenated name lists collects the concatenation of what each collects |
| Locator.PickedPermutation | sync.py:46-48 | listing a directory's files in another order permutes the collected paths |
| Locator.SelectedFilePermutation | sync.py:44-48 | a walk whose directories list their files in another order collects the same multiset of paths |
| Locator.LocatedIgnoresFileOrder | sync.py:44-49 | the locators' results do not depend on the order `os.walk` lists the files of each directory |
| Locator.PickFiles | sync.py:46-48 | the inner loop over one directory's files builds exactly `Picked` |
| Locator.LocatedSpec | sync.py:42-61 | the locators' result is sorted and holds exactly the qualifying paths |
| Locator.Locate | sync.py:42-61 | the nested collection loops followed by `sorted` compute `Located`: sorted, and exactly the qualifying paths |
| Locator.FindVelodyneTxtFiles | sync.py:42-49 | sorted, and exactly the `.txt` files not starting with `._` in directories whose path has `velodyne_points` and `data` |
| Locator.FindImageFiles | sync.py:54-61 | sorted, and exactly the `.png`/`.jpg`/`.jpeg` files, in any case, not starting with `._` in directories whose path has `image_02` and `data` |
| Locator.ImageExtensionAnyCase | sync.py:59 | a name ending in any upper/lower-case spelling of `.png`, `.jpg` or `.jpeg` passes the image extension test |
| Locator.ImageExtensionExamples | sync.py:59 | `.PNG`, `.Jpg` and `.jPeG` are accepted as image extensions |
| Locator.LidarExtensionCase | sync.py:47 | the LiDAR test accepts `.txt` and, being case-sensitive, rejects `.TXT` |
| Locator.LocatedKeys | sync.py:92-93 | a qualifying file's joined path is returned, and its frame identifier is the file name's stem |
| Synchronizer.KeyMap | sync.py:92-93 | the dict has exactly the identifiers of the list as keys, each mapped to the last path with that identifier |
| Synchronizer.KeyMapExtend | sync.py:92-93 | adding a path to the comprehension overrides its identifier's entry and keeps the map's meaning |
| Synchronizer.KeyMapLastWins | sync.py:92-93 | a path with no later path sharing its identifier is the one the dict keeps |
| Synchronizer.KeysIn | sync.py:94 | the kept identifiers are those of the list that lie in the other set |
| Synchronizer.CommonKeys | sync.py:94 | the common identifiers are strictly ascending and exactly the intersection of the two key sets |
| Synchronizer.CommonKeysInMaps | sync.py:94-96 | every common identifier is a key of both dicts |
| Synchronizer.PairByKey | sync.py:91-97 | the append loop builds exactly `Pairs` |
| Synchronizer.SynchronizeData | sync.py:90-97 | `synchronize_data` returns `Synchronize` of its inputs, pairing by `FrameKey` |
| Synchronizer.PairsAscend | sync.py:94-96 | the identifiers of the emitted pairs strictly ascend |
| Synchronizer.PairsShareKey | sync.py:95-96 | both paths of a pair have the same identifier, and each comes from its own list |
| Synchronizer.PairsCoverCommonKeys | sync.py:94-96 | an identifier has a pair exactly when both lists have it |
| Synchronizer.PairCount | sync.py:94-97 | the number of pairs is the number of common identifiers |
| Synchronizer.PairsUseLastPaths | sync.py:92-96 | each pair holds the last path of each list with its identifier |
| Synchronizer.ShadowedLidarDropped | sync.py:92 | a LiDAR path overridden by a later different path with the same identifier appears in no pair |
| Synchronizer.ShadowedImageDropped | sync.py:93 | an image path overridden by a later different path with the same identifier appears in no pair |
| Synchronizer.UniqueLast | sync.py:92-93 | the last path with an identifier is unique |
| Synchronizer.NoCommonKeysNoPairs | sync.py:94-97 | an empty list, or lists with no common identifier, give no pairs |
| Synchronizer.PairsDependOnlyOnMaps | sync.py:92-97 | inputs that build the same two dicts give the same pairs |
| Synchronizer.KeyMapIgnoresOrder | sync.py:92-93 | with one path per identifier, the dict does not depend on list order |
| Synchronizer.PairsIgnoreListOrder | sync.py:92-97 | with one path per identifier in each list, reordering the lists leaves the pairs unchanged |
| Synchronizer.GuardedCallAgrees | sync.py:104-115 | calling `synchronize_data` only when both lists are non-empty, else keeping `[]`, gives the same result as calling it always |
| Synchronizer.FrameKeyOfFrameFile | sync.py:92-93 | the identifier of `dir/stem.ext` is `stem` for an extension like `.txt`, `.png`, `.jpg` or `.jpeg`: one dot, then no dot and no `/` |
| Synchronizer.FrameMatch | sync.py:90-97 | two two-frame lists sharing only their first identifier give exactly one pair, of their first paths |
| Synchronizer.OneCommonFrame | sync.py:90-97 | LiDAR frames 1 and 2 against camera frames 1 and 3 pair only frame 1 |

## Left out

- The Streamlit user interface is not modelled: uploads, selection boxes, buttons, messages and image display (sync.py:116-145).
- The zip handling is not modelled, because it is I/O: writing the upload, `extractall`, and the export archive (sync.py:162-165). In that archive, two pairs whose files share a basename store two entries under one name; that behaviour belongs to the zip library.
- Loading a LiDAR file with `np.loadtxt`, reading images with `cv2`, and the matplotlib plots are not modelled; they are numeric I/O and foreign calls.
- The HDF5 export and `os.makedirs` are not modelled; they are file-system I/O.
- `os.walk` itself is not modelled. Its output is the locators' input, one `WalkEntry` per visited directory. The `dirs` list that each step also yields is not modelled, because the locators never read it.
- `Strings.Lower`: models the case mapping of the ASCII letters `A`-`Z` only. For the extension test this is exact. Non-ASCII case mapping, such as `İ` becoming two code points, is not captured.
- `Sorting.Sort`: Python's Timsort is modelled by an insertion sort. `SortedUnique` shows that any sort meeting the contract returns the same sequence.
- `Synchronizer.KeyMapIgnoresOrder`: order independence is stated only for lists with one path per identifier. When two paths share an identifier, the last one in list order wins, and `ShadowedLidarDropped` and `ShadowedImageDropped` state that.
- Frame identifiers are compared as strings, as `sync.py` does. Numeric ordering of frame numbers of different widths is not a property of the source.
- Paths are compared by code point; no Unicode normalisation is modelled. File names that Python decodes with `surrogateescape` (undecodable bytes as lone surrogates) are not modelled, because a Dafny `char` cannot hold a lone surrogate.
- `PathNames.Stem`, `PathNames.Ext`: model `os.path.splitext` only on names without a `/`. Python looks for the extension only after the last `/`, which these functions do not do; `FrameKey` applies them only to a basename, so the frame identifier is exact.
