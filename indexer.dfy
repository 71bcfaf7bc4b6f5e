/** The directory-structure map built by `generateIndexPages` (main.ts:225-277):
    for every directory that holds a document, directly or further down, the
    document names directly inside it and the names of its direct subdirectories;
    then the set of top-level directories.

    `Index` states declaratively what the map holds for a list of relative
    document paths; `BuildStructure` is the imperative build the source performs,
    proved to produce exactly `Index`. The lemmas after it state the properties
    the index pages rely on. */
module Indexer {
  import opened Strings

  /** One value of the map: `files` in the order the documents were met, `subDirs` a set. */
  datatype DirEntry = DirEntry(files: seq<string>, subDirs: set<string>)

  const Empty := DirEntry([], {})

  /** `directoryStructure`: directory path, joined with `/`, to its entry. */
  type Structure = map<string, DirEntry>

  function Get(m: Structure, k: string): DirEntry {
    if k in m then m[k] else Empty
  }

  /** The directory segments of a relative path: what `parts` holds after `pop()`. */
  function Dirs(path: string): seq<string> {
    var parts := Split(path);
    parts[..|parts| - 1]
  }

  /** The document's own name: what `parts.pop()` returns. */
  function FileName(path: string): string {
    var parts := Split(path);
    parts[|parts| - 1]
  }

  /** `currentPath` after the first `i` segments of `d`: the previous value, a `/`
      and the segment, except that an empty previous value (falsy in JavaScript)
      is replaced by the segment alone. */
  function Key(d: seq<string>, i: nat): string
    requires i <= |d|
  {
    if i == 0 then ""
    else
      var prev := Key(d, i - 1);
      if prev != "" then prev + "/" + d[i - 1] else d[i - 1]
  }

  // ---------------------------------------------------------------------------
  // What the map holds, stated per document path

  /** Keys created for one document: every `currentPath` it passes through, and
      the `parts.join('/')` its name is filed under when it has a directory. */
  function PathKeys(path: string): set<string> {
    var d := Dirs(path);
    KeysUpTo(d, |d|) + (if |d| > 0 then {Join(d, "/")} else {})
  }

  /** Names the document adds to the `subDirs` of key `k`: each segment whose
      preceding `currentPath` is `k`, when `k` is non-empty. */
  function PathSubDirs(path: string, k: string): set<string> {
    var d := Dirs(path);
    SubDirsUpTo(d, |d|, k)
  }

  /** The `currentPath` values after each of the first `i` segments. */
  function KeysUpTo(d: seq<string>, i: nat): set<string>
    requires i <= |d|
  {
    set t | 1 <= t <= i :: Key(d, t)
  }

  /** The segments among the first `i` whose preceding `currentPath` is the non-empty `k`. */
  function SubDirsUpTo(d: seq<string>, i: nat, k: string): set<string>
    requires i <= |d|
  {
    set t | 0 <= t < i && k != "" && Key(d, t) == k :: d[t]
  }

  /** What the document appends to the `files` of key `k`. */
  function PathFiles(path: string, k: string): seq<string> {
    var d := Dirs(path);
    if |d| > 0 && Join(d, "/") == k then [FileName(path)] else []
  }

  function Keys(paths: seq<string>): set<string> {
    if |paths| == 0 then {}
    else Keys(paths[..|paths| - 1]) + PathKeys(paths[|paths| - 1])
  }

  function SubDirsOf(paths: seq<string>, k: string): set<string> {
    if |paths| == 0 then {}
    else SubDirsOf(paths[..|paths| - 1], k) + PathSubDirs(paths[|paths| - 1], k)
  }

  /** The names filed under `k`, in the order of `paths`. */
  function FilesOf(paths: seq<string>, k: string): seq<string> {
    if |paths| == 0 then []
    else FilesOf(paths[..|paths| - 1], k) + PathFiles(paths[|paths| - 1], k)
  }

  /** The map the indexer builds from a list of relative document paths. */
  function Index(paths: seq<string>): Structure {
    map k | k in Keys(paths) :: DirEntry(FilesOf(paths, k), SubDirsOf(paths, k))
  }

  /** The map after one more document has been added to `m`. */
  function Extend(m: Structure, path: string): Structure {
    map k | k in m.Keys + PathKeys(path) ::
      DirEntry(Get(m, k).files + PathFiles(path, k), Get(m, k).subDirs + PathSubDirs(path, k))
  }

  // ---------------------------------------------------------------------------
  // The build, as the source performs it

  /** `w` is the map `m` after the segment loop has created the keys of the first
      `created` segments and recorded the subdirectories of the first `linked`. */
  ghost predicate Walked(m: Structure, d: seq<string>, created: nat, linked: nat, w: Structure)
    requires created <= |d| && linked <= |d|
  {
    && w.Keys == m.Keys + KeysUpTo(d, created)
    && forall k :: k in w ==> w[k] == DirEntry(Get(m, k).files, Get(m, k).subDirs + SubDirsUpTo(d, linked, k))
  }

  /** The callback `files.forEach` runs for one document (main.ts:234-268). */
  method AddPath(structure: Structure, relativePath: string) returns (updated: Structure)
    ensures updated == Extend(structure, relativePath)
  {
    var parts := Split(relativePath);
    var fileName := parts[|parts| - 1];
    parts := parts[..|parts| - 1];
    updated := structure;
    var currentPath := "";
    WalkStart(structure, parts);
    var i := 0;
    while i < |parts|
      invariant 0 <= i <= |parts|
      invariant currentPath == Key(parts, i)
      invariant Walked(structure, parts, i, i, updated)
    {
      updated, currentPath := AddSegment(structure, parts, i, updated, currentPath);
      i := i + 1;
    }
    ghost var walked := updated;
    if |parts| > 0 {
      var dirPath := Join(parts, "/");
      if dirPath !in updated {
        updated := updated[dirPath := Empty];
      }
      updated := updated[dirPath := updated[dirPath].(files := updated[dirPath].files + [fileName])];
    }
    WalkDone(structure, relativePath, walked, updated);
  }

  /** One turn of the segment loop: extend `currentPath`, create its key, and
      record the segment under a non-empty `parentPath`. */
  method AddSegment(structure: Structure, parts: seq<string>, i: nat, walked: Structure, parentPath: string)
    returns (updated: Structure, currentPath: string)
    requires i < |parts| && parentPath == Key(parts, i)
    requires Walked(structure, parts, i, i, walked)
    ensures currentPath == Key(parts, i + 1)
    ensures Walked(structure, parts, i + 1, i + 1, updated)
  {
    var part := parts[i];
    updated := walked;
    currentPath := if parentPath != "" then parentPath + "/" + part else part;
    CreateStep(structure, parts, i, updated);
    if currentPath !in updated {
      updated := updated[currentPath := Empty];
    }
    assert Walked(structure, parts, i + 1, i, updated);
    if parentPath != "" {
      LinkStep(structure, parts, i, updated);
      if parentPath !in updated {
        updated := updated[parentPath := Empty];
      }
      updated := updated[parentPath := updated[parentPath].(subDirs := updated[parentPath].subDirs + {part})];
    } else {
      NoLinkStep(structure, parts, i, updated);
    }
  }

  /** `generateIndexPages`, step 1 (main.ts:230-269): the map for all documents. */
  method BuildStructure(paths: seq<string>) returns (structure: Structure)
    ensures structure == Index(paths)
  {
    structure := map[];
    var j := 0;
    while j < |paths|
      invariant 0 <= j <= |paths|
      invariant structure == Index(paths[..j])
    {
      structure := AddPath(structure, paths[j]);
      IndexSnoc(paths[..j], paths[j]);
      assert paths[..j + 1] == paths[..j] + [paths[j]];
      j := j + 1;
    }
    assert paths[..|paths|] == paths;
  }

  /** The keys that contain no `/`. */
  function TopLevel(structure: Structure): set<string> {
    set k | k in structure && '/' !in k
  }

  /** `topLevelDirs` (main.ts:271-277), one key at a time. */
  method TopLevelDirs(structure: Structure) returns (topLevelDirs: set<string>)
    ensures topLevelDirs == TopLevel(structure)
  {
    topLevelDirs := {};
    var remaining := structure.Keys;
    while remaining != {}
      invariant remaining <= structure.Keys
      invariant topLevelDirs == set k | k in structure.Keys - remaining && '/' !in k
      decreases |remaining|
    {
      var dirPath :| dirPath in remaining;
      if '/' !in dirPath {
        topLevelDirs := topLevelDirs + {dirPath};
      }
      remaining := remaining - {dirPath};
    }
  }

  // ---------------------------------------------------------------------------
  // Proof that the build meets the declarative description

  lemma WalkStart(m: Structure, d: seq<string>)
    ensures Walked(m, d, 0, 0, m)
  {
    assert KeysUpTo(d, 0) == {};
    forall k | k in m ensures SubDirsUpTo(d, 0, k) == {} {
    }
  }

  lemma KeysUpToStep(d: seq<string>, i: nat)
    requires i < |d|
    ensures KeysUpTo(d, i + 1) == KeysUpTo(d, i) + {Key(d, i + 1)}
  {
    var j := i + 1;
    forall x | x in KeysUpTo(d, j) ensures x in KeysUpTo(d, i) + {Key(d, j)} {
      var t :| 1 <= t <= j && x == Key(d, t);
      if t <= i {
        assert x in KeysUpTo(d, i);
      }
    }
    forall x | x in KeysUpTo(d, i) ensures x in KeysUpTo(d, j) {
      var t :| 1 <= t <= i && x == Key(d, t);
    }
    assert Key(d, j) in KeysUpTo(d, j);
  }

  lemma SubDirsUpToStep(d: seq<string>, i: nat, k: string)
    requires i < |d|
    ensures SubDirsUpTo(d, i + 1, k) ==
            SubDirsUpTo(d, i, k) + (if k != "" && Key(d, i) == k then {d[i]} else {})
  {
    var j := i + 1;
    var extra: set<string> := if k != "" && Key(d, i) == k then {d[i]} else {};
    SubDirsUpToShrink(d, i, k);
    forall x | x in SubDirsUpTo(d, i, k) ensures x in SubDirsUpTo(d, j, k) {
      var t :| 0 <= t < i && k != "" && Key(d, t) == k && x == d[t];
    }
    if k != "" && Key(d, i) == k {
      assert d[i] in SubDirsUpTo(d, j, k);
    }
    assert SubDirsUpTo(d, i, k) + extra <= SubDirsUpTo(d, j, k);
  }

  lemma SubDirsUpToShrink(d: seq<string>, i: nat, k: string)
    requires i < |d|
    ensures SubDirsUpTo(d, i + 1, k) <=
            SubDirsUpTo(d, i, k) + (if k != "" && Key(d, i) == k then {d[i]} else {})
  {
    var j := i + 1;
    forall x | x in SubDirsUpTo(d, j, k)
      ensures x in SubDirsUpTo(d, i, k) + (if k != "" && Key(d, i) == k then {d[i]} else {})
    {
      var t :| 0 <= t < j && k != "" && Key(d, t) == k && x == d[t];
      if t < i {
        assert x in SubDirsUpTo(d, i, k);
      } else {
        assert t == i && x == d[i] && Key(d, i) == k;
      }
    }
  }

  /** Only a key gets subdirectory names: the parent was created one step earlier. */
  lemma SubDirsNeedKey(d: seq<string>, i: nat, k: string)
    requires i <= |d|
    ensures SubDirsUpTo(d, i, k) != {} ==> k in KeysUpTo(d, i)
  {
    if SubDirsUpTo(d, i, k) != {} {
      var x :| x in SubDirsUpTo(d, i, k);
      var t :| 0 <= t < i && k != "" && Key(d, t) == k && x == d[t];
      assert t != 0;
      assert Key(d, t) in KeysUpTo(d, i);
    }
  }

  /** Creating the key `currentPath` for segment `i`. */
  lemma CreateStep(m: Structure, d: seq<string>, i: nat, w: Structure)
    requires i < |d| && Walked(m, d, i, i, w)
    ensures var cur := Key(d, i + 1);
            Walked(m, d, i + 1, i, if cur !in w then w[cur := Empty] else w)
  {
    var cur := Key(d, i + 1);
    var w1 := if cur !in w then w[cur := Empty] else w;
    KeysUpToStep(d, i);
    if cur !in w {
      SubDirsNeedKey(d, i, cur);
      assert w1[cur] == DirEntry(Get(m, cur).files, Get(m, cur).subDirs + SubDirsUpTo(d, i, cur));
    }
  }

  /** Recording segment `i` among the subdirectories of the non-empty `parentPath`. */
  lemma LinkStep(m: Structure, d: seq<string>, i: nat, w: Structure)
    requires i < |d| && Key(d, i) != "" && Walked(m, d, i + 1, i, w)
    ensures Key(d, i) in w
    ensures var p := Key(d, i);
            Walked(m, d, i + 1, i + 1, w[p := w[p].(subDirs := w[p].subDirs + {d[i]})])
  {
    var p := Key(d, i);
    assert i != 0;
    KeysUpToStep(d, i);
    assert p in KeysUpTo(d, i);
    assert p in w;
    var w2 := w[p := w[p].(subDirs := w[p].subDirs + {d[i]})];
    assert w2.Keys == w.Keys;
    forall k | k in w2
      ensures w2[k] == DirEntry(Get(m, k).files, Get(m, k).subDirs + SubDirsUpTo(d, i + 1, k))
    {
      LinkedAt(m, d, i, w, k);
    }
  }

  /** The entry of one key after the segment is recorded under `parentPath`. */
  lemma LinkedAt(m: Structure, d: seq<string>, i: nat, w: Structure, k: string)
    requires i < |d| && Key(d, i) != "" && Walked(m, d, i + 1, i, w)
    requires Key(d, i) in w && k in w
    ensures var p := Key(d, i);
            var w2 := w[p := w[p].(subDirs := w[p].subDirs + {d[i]})];
            w2[k] == DirEntry(Get(m, k).files, Get(m, k).subDirs + SubDirsUpTo(d, i + 1, k))
  {
    var p := Key(d, i);
    SubDirsUpToStep(d, i, k);
    if k == p {
      assert SubDirsUpTo(d, i + 1, k) == SubDirsUpTo(d, i, k) + {d[i]};
    } else {
      assert SubDirsUpTo(d, i + 1, k) == SubDirsUpTo(d, i, k);
    }
  }

  /** With an empty `parentPath` nothing is recorded. */
  lemma NoLinkStep(m: Structure, d: seq<string>, i: nat, w: Structure)
    requires i < |d| && Key(d, i) == "" && Walked(m, d, i + 1, i, w)
    ensures Walked(m, d, i + 1, i + 1, w)
  {
    forall k | k in w
      ensures w[k] == DirEntry(Get(m, k).files, Get(m, k).subDirs + SubDirsUpTo(d, i + 1, k))
    {
      SubDirsUpToStep(d, i, k);
    }
  }

  /** The file step after the segment loop completes the document's update. */
  lemma WalkDone(m: Structure, path: string, w: Structure, updated: Structure)
    requires Walked(m, Dirs(path), |Dirs(path)|, |Dirs(path)|, w)
    requires var d := Dirs(path);
             var j := Join(d, "/");
             updated == if |d| > 0 then
                          var w1 := if j !in w then w[j := Empty] else w;
                          w1[j := w1[j].(files := w1[j].files + [FileName(path)])]
                        else w
    ensures updated == Extend(m, path)
  {
    var e := Extend(m, path);
    assert updated.Keys == e.Keys;
    forall k | k in e ensures updated[k] == e[k] {
      FiledAt(m, path, w, updated, k);
    }
  }

  /** The entry of one key after the file step. */
  lemma FiledAt(m: Structure, path: string, w: Structure, updated: Structure, k: string)
    requires Walked(m, Dirs(path), |Dirs(path)|, |Dirs(path)|, w)
    requires var d := Dirs(path);
             var j := Join(d, "/");
             updated == if |d| > 0 then
                          var w1 := if j !in w then w[j := Empty] else w;
                          w1[j := w1[j].(files := w1[j].files + [FileName(path)])]
                        else w
    requires k in Extend(m, path)
    ensures k in updated && updated[k] == Extend(m, path)[k]
  {
    var d := Dirs(path);
    var j := Join(d, "/");
    var e := Extend(m, path)[k];
    assert e == DirEntry(Get(m, k).files + PathFiles(path, k), Get(m, k).subDirs + PathSubDirs(path, k));
    if |d| > 0 && k == j {
      FiledUnderJoin(m, path, w, updated);
    } else {
      assert PathFiles(path, k) == [];
      assert k in w;
      assert updated[k] == w[k];
    }
  }

  /** The key the document is filed under. */
  lemma FiledUnderJoin(m: Structure, path: string, w: Structure, updated: Structure)
    requires Walked(m, Dirs(path), |Dirs(path)|, |Dirs(path)|, w)
    requires |Dirs(path)| > 0
    requires var j := Join(Dirs(path), "/");
             var w1 := if j !in w then w[j := Empty] else w;
             updated == w1[j := w1[j].(files := w1[j].files + [FileName(path)])]
    ensures var j := Join(Dirs(path), "/");
            j in updated && updated[j] == Extend(m, path)[j]
  {
    var d := Dirs(path);
    var j := Join(d, "/");
    assert PathFiles(path, j) == [FileName(path)];
    if j !in w {
      SubDirsNeedKey(d, |d|, j);
      assert j !in m;
      assert PathSubDirs(path, j) == {};
    }
  }

  /** Outside the keys, nothing is recorded. */
  lemma {:induction false} NothingOutsideKeys(paths: seq<string>, k: string)
    requires k !in Keys(paths)
    ensures FilesOf(paths, k) == [] && SubDirsOf(paths, k) == {}
  {
    if |paths| > 0 {
      var p := paths[|paths| - 1];
      NothingOutsideKeys(paths[..|paths| - 1], k);
      SubDirsNeedKey(Dirs(p), |Dirs(p)|, k);
    }
  }

  /** Adding one document to the list extends the map by that document. */
  lemma IndexSnoc(paths: seq<string>, path: string)
    ensures Index(paths + [path]) == Extend(Index(paths), path)
  {
    var all := paths + [path];
    assert all[..|all| - 1] == paths;
    forall k | k !in Keys(paths) ensures FilesOf(paths, k) == [] && SubDirsOf(paths, k) == {} {
      NothingOutsideKeys(paths, k);
    }
  }

  // ---------------------------------------------------------------------------
  // Properties of the map

  /** Every `currentPath` a document passes through is a key. */
  lemma {:induction false} AncestorsAreKeys(paths: seq<string>, n: nat, i: nat)
    requires n < |paths| && 1 <= i <= |Dirs(paths[n])|
    ensures Key(Dirs(paths[n]), i) in Index(paths)
  {
    var last := |paths| - 1;
    if n < last {
      AncestorsAreKeys(paths[..last], n, i);
    }
  }

  /** With no empty segment, `currentPath` is the prefix of the segments joined with `/`. */
  lemma {:induction false} KeyIsJoin(d: seq<string>, i: nat)
    requires i <= |d|
    requires forall t :: 0 <= t < i ==> d[t] != ""
    ensures Key(d, i) == Join(d[..i], "/")
  {
    if i > 1 {
      KeyIsJoin(d, i - 1);
      JoinSnoc(d[..i - 1], d[i - 1]);
      assert d[..i - 1] + [d[i - 1]] == d[..i];
    } else if i == 1 {
      assert d[..1] == [d[0]];
    }
  }

  lemma {:induction false} JoinSnoc(parts: seq<string>, last: string)
    requires |parts| > 0
    ensures Join(parts + [last], "/") == Join(parts, "/") + "/" + last
  {
    if |parts| > 1 {
      JoinSnoc(parts[1..], last);
      assert (parts + [last])[1..] == parts[1..] + [last];
    }
  }

  /** For documents whose segments are non-empty, every ancestor directory,
      written with `/`, is a key. */
  lemma AncestorDirectoriesAreKeys(paths: seq<string>, n: nat, i: nat)
    requires n < |paths| && 1 <= i <= |Dirs(paths[n])|
    requires forall t :: 0 <= t < |Dirs(paths[n])| ==> Dirs(paths[n])[t] != ""
    ensures Join(Dirs(paths[n])[..i], "/") in Index(paths)
  {
    AncestorsAreKeys(paths, n, i);
    KeyIsJoin(Dirs(paths[n]), i);
  }

  /** Each directory a document passes through lists the next segment among its subdirectories. */
  lemma {:induction false} ChildInParent(paths: seq<string>, n: nat, i: nat)
    requires n < |paths| && 1 <= i < |Dirs(paths[n])|
    requires Key(Dirs(paths[n]), i) != ""
    ensures Key(Dirs(paths[n]), i) in Index(paths)
    ensures Dirs(paths[n])[i] in Index(paths)[Key(Dirs(paths[n]), i)].subDirs
  {
    AncestorsAreKeys(paths, n, i);
    ChildInSubDirsOf(paths, n, i);
  }

  lemma {:induction false} ChildInSubDirsOf(paths: seq<string>, n: nat, i: nat)
    requires n < |paths| && 1 <= i < |Dirs(paths[n])|
    requires Key(Dirs(paths[n]), i) != ""
    ensures Dirs(paths[n])[i] in SubDirsOf(paths, Key(Dirs(paths[n]), i))
  {
    var last := |paths| - 1;
    var d := Dirs(paths[n]);
    if n < last {
      ChildInSubDirsOf(paths[..last], n, i);
      assert paths[..last][n] == paths[n];
    } else {
      assert d[i] in SubDirsUpTo(d, |d|, Key(d, i));
    }
  }

  /** A document inside a directory is filed under its full directory path. */
  lemma {:induction false} FileRecorded(paths: seq<string>, n: nat)
    requires n < |paths| && |Dirs(paths[n])| > 0
    ensures Join(Dirs(paths[n]), "/") in Index(paths)
    ensures FileName(paths[n]) in Index(paths)[Join(Dirs(paths[n]), "/")].files
  {
    FileInFilesOf(paths, n);
    var last := |paths| - 1;
    if n < last {
      FileRecorded(paths[..last], n);
    }
  }

  /** The folder a document is filed under is named by a key that starts with
      the document's top-level folder and ends with its innermost folder. */
  lemma FiledUnderOwnFolder(path: string)
    requires |Dirs(path)| > 0
    ensures Dirs(path)[0] <= Join(Dirs(path), "/")
    ensures EndsWith(Join(Dirs(path), "/"), Dirs(path)[|Dirs(path)| - 1])
  {
    JoinEnds(Dirs(path), "/");
  }

  lemma {:induction false} FileInFilesOf(paths: seq<string>, n: nat)
    requires n < |paths| && |Dirs(paths[n])| > 0
    ensures FileName(paths[n]) in FilesOf(paths, Join(Dirs(paths[n]), "/"))
  {
    var last := |paths| - 1;
    if n < last {
      FileInFilesOf(paths[..last], n);
    }
  }

  /** A document at the root creates no key and is filed nowhere. */
  lemma RootFileRecordedNowhere(paths: seq<string>, path: string)
    requires |Dirs(path)| == 0
    ensures Index(paths + [path]) == Index(paths)
  {
    IndexSnoc(paths, path);
    var m := Index(paths);
    var e := Extend(m, path);
    assert PathKeys(path) == {};
    assert e.Keys == m.Keys;
    forall k | k in m ensures e[k] == m[k] {
      RootFileAddsNothing(path, k);
      assert Get(m, k) == m[k];
    }
  }

  lemma RootFileAddsNothing(path: string, k: string)
    requires |Dirs(path)| == 0
    ensures PathFiles(path, k) == [] && PathSubDirs(path, k) == {}
  {
  }

  /** A document listed again adds no key and no subdirectory name: `subDirs` is a set. */
  lemma RepeatedPathAddsNoDirectory(paths: seq<string>, n: nat)
    requires n < |paths|
    ensures Index(paths + [paths[n]]).Keys == Index(paths).Keys
    ensures forall k :: k in Index(paths) ==>
              Index(paths + [paths[n]])[k].subDirs == Index(paths)[k].subDirs
  {
    IndexSnoc(paths, paths[n]);
    forall k ensures PathSubDirs(paths[n], k) <= SubDirsOf(paths, k) {
      PathSubDirsIncluded(paths, n, k);
    }
    PathKeysIncluded(paths, n);
  }

  lemma {:induction false} PathKeysIncluded(paths: seq<string>, n: nat)
    requires n < |paths|
    ensures PathKeys(paths[n]) <= Keys(paths)
  {
    var last := |paths| - 1;
    if n < last {
      PathKeysIncluded(paths[..last], n);
    }
  }

  lemma {:induction false} PathSubDirsIncluded(paths: seq<string>, n: nat, k: string)
    requires n < |paths|
    ensures PathSubDirs(paths[n], k) <= SubDirsOf(paths, k)
  {
    var last := |paths| - 1;
    if n < last {
      PathSubDirsIncluded(paths[..last], n, k);
    }
  }

  /** Every key comes from some document. */
  lemma {:induction false} KeyHasSource(paths: seq<string>, k: string)
    requires k in Keys(paths)
    ensures exists n :: 0 <= n < |paths| && k in PathKeys(paths[n])
  {
    var last := |paths| - 1;
    if k !in PathKeys(paths[last]) {
      KeyHasSource(paths[..last], k);
      var n :| 0 <= n < last && k in PathKeys(paths[..last][n]);
      assert paths[..last][n] == paths[n];
    }
  }

  /** No segment of a relative path contains a separator. */
  lemma SegmentsHaveNoSeparator(path: string, t: nat)
    requires t < |Dirs(path)|
    ensures '/' !in Dirs(path)[t]
  {
    var parts := Split(path);
    assert Dirs(path)[t] == parts[t];
  }

  /** With non-empty segments, `currentPath` after two or more segments contains a `/`,
      and after one segment it is that segment. */
  lemma {:induction false} KeySlash(d: seq<string>, i: nat)
    requires 1 <= i <= |d|
    requires forall t :: 0 <= t < |d| ==> d[t] != ""
    ensures Key(d, i) != ""
    ensures i == 1 ==> Key(d, i) == d[0]
    ensures i >= 2 ==> '/' in Key(d, i)
  {
    if i > 1 {
      KeySlash(d, i - 1);
      var prev := Key(d, i - 1);
      assert (prev + "/" + d[i - 1])[|prev|] == '/';
    }
  }

  /** For documents whose segments are non-empty, the top-level directories are
      exactly the first segments of the documents that have a directory. */
  lemma TopLevelAreFirstSegments(paths: seq<string>)
    requires forall n, t :: 0 <= n < |paths| && 0 <= t < |Dirs(paths[n])| ==> Dirs(paths[n])[t] != ""
    ensures TopLevel(Index(paths)) ==
            set n | 0 <= n < |paths| && |Dirs(paths[n])| > 0 :: Dirs(paths[n])[0]
  {
    var first := set n | 0 <= n < |paths| && |Dirs(paths[n])| > 0 :: Dirs(paths[n])[0];
    forall k | k in TopLevel(Index(paths)) ensures k in first {
      var n := TopLevelIsFirst(paths, k);
    }
    forall k | k in first ensures k in TopLevel(Index(paths)) {
      var n :| 0 <= n < |paths| && |Dirs(paths[n])| > 0 && k == Dirs(paths[n])[0];
      FirstIsTopLevel(paths, n);
    }
  }

  /** A top-level key is the first directory of some document. */
  lemma TopLevelIsFirst(paths: seq<string>, k: string) returns (n: nat)
    requires forall n, t :: 0 <= n < |paths| && 0 <= t < |Dirs(paths[n])| ==> Dirs(paths[n])[t] != ""
    requires k in TopLevel(Index(paths))
    ensures n < |paths| && |Dirs(paths[n])| > 0 && k == Dirs(paths[n])[0]
  {
    KeyHasSource(paths, k);
    n :| 0 <= n < |paths| && k in PathKeys(paths[n]);
    var d := Dirs(paths[n]);
    assert forall t :: 0 <= t < |d| ==> d[t] != "";
    var i := PathKeyAt(paths[n], k);
    SlashFreeKey(d, i, k);
  }

  /** Where in its document's segment walk a key is created. */
  lemma PathKeyAt(path: string, k: string) returns (i: nat)
    requires k in PathKeys(path)
    ensures 1 <= i <= |Dirs(path)|
    ensures k == Key(Dirs(path), i) || k == Join(Dirs(path), "/")
  {
    var d := Dirs(path);
    if k in KeysUpTo(d, |d|) {
      i :| 1 <= i <= |d| && k == Key(d, i);
    } else {
      i := |d|;
    }
  }

  /** A key without `/` from non-empty segments is the first segment. */
  lemma SlashFreeKey(d: seq<string>, i: nat, k: string)
    requires 1 <= i <= |d|
    requires forall t :: 0 <= t < |d| ==> d[t] != ""
    requires k == Key(d, i) || k == Join(d, "/")
    requires '/' !in k
    ensures k == d[0]
  {
    if k == Join(d, "/") {
      KeyIsJoin(d, |d|);
      assert d[..|d|] == d;
      KeySlash(d, |d|);
    } else {
      KeySlash(d, i);
    }
  }

  /** The first directory of every document is a top-level key. */
  lemma FirstIsTopLevel(paths: seq<string>, n: nat)
    requires forall n, t :: 0 <= n < |paths| && 0 <= t < |Dirs(paths[n])| ==> Dirs(paths[n])[t] != ""
    requires n < |paths| && |Dirs(paths[n])| > 0
    ensures Dirs(paths[n])[0] in TopLevel(Index(paths))
  {
    AncestorsAreKeys(paths, n, 1);
    KeySlash(Dirs(paths[n]), 1);
    SegmentsHaveNoSeparator(paths[n], 0);
  }

  /** A path written as separator-free pieces joined with `/`: its directories
      are all pieces but the last, its name is the last. */
  lemma PathOfPieces(parts: seq<string>)
    requires |parts| >= 1
    requires forall k, j :: 0 <= k < |parts| && 0 <= j < |parts[k]| ==> !IsSep(parts[k][j])
    ensures Dirs(Join(parts, "/")) == parts[..|parts| - 1]
    ensures FileName(Join(parts, "/")) == parts[|parts| - 1]
  {
    SplitJoin(parts);
  }

  /** What a document one directory deep contributes. */
  lemma OneLevel(path: string, a: string)
    requires Dirs(path) == [a] && a != ""
    ensures PathKeys(path) == {a}
    ensures forall k :: PathSubDirs(path, k) == {}
    ensures forall k :: PathFiles(path, k) == if k == a then [FileName(path)] else []
  {
    var d := [a];
    KeysUpToStep(d, 0);
    assert KeysUpTo(d, 0) == {};
    forall k ensures PathSubDirs(path, k) == {} {
      SubDirsUpToStep(d, 0, k);
    }
  }

  /** What a document two directories deep contributes. */
  lemma TwoLevels(path: string, a: string, b: string)
    requires Dirs(path) == [a, b] && a != ""
    ensures PathKeys(path) == {a, a + "/" + b}
    ensures forall k :: PathSubDirs(path, k) == if k == a then {b} else {}
    ensures forall k :: PathFiles(path, k) == if k == a + "/" + b then [FileName(path)] else []
  {
    var d := [a, b];
    assert Key(d, 1) == a && Key(d, 2) == a + "/" + b;
    assert Join(d, "/") == a + "/" + b;
    KeysUpToStep(d, 0);
    KeysUpToStep(d, 1);
    assert KeysUpTo(d, 0) == {};
    forall k ensures PathSubDirs(path, k) == if k == a then {b} else {} {
      SubDirsUpToStep(d, 0, k);
      SubDirsUpToStep(d, 1, k);
    }
  }

  /** The description of a two-document list, one document at a time. */
  lemma PairOfPaths(p: string, q: string, k: string)
    ensures Keys([p, q]) == PathKeys(p) + PathKeys(q)
    ensures FilesOf([p, q], k) == PathFiles(p, k) + PathFiles(q, k)
    ensures SubDirsOf([p, q], k) == PathSubDirs(p, k) + PathSubDirs(q, k)
  {
    var ps := [p, q];
    assert ps[..1] == [p] && ps[1] == q;
    assert [p][..0] == [] && [p][0] == p;
    assert Keys([p]) == {} + PathKeys(p);
    assert FilesOf([p], k) == [] + PathFiles(p, k);
    assert SubDirsOf([p], k) == {} + PathSubDirs(p, k);
  }

  /** A document in `a` followed by one in `a/b`: `a` files the first and lists
      `b`, and `a/b` files the second. */
  lemma NestedPair(p: string, q: string, a: string, b: string)
    requires Dirs(p) == [a] && Dirs(q) == [a, b] && a != ""
    ensures Index([p, q]) ==
            map[a := DirEntry([FileName(p)], {b}), a + "/" + b := DirEntry([FileName(q)], {})]
  {
    var ab := a + "/" + b;
    assert ab != a by { assert |ab| > |a|; }
    var m := Index([p, q]);
    NestedPairEntries(p, q, a, b);
    MapOfTwo(m, a, ab, DirEntry([FileName(p)], {b}), DirEntry([FileName(q)], {}));
  }

  lemma NestedPairEntries(p: string, q: string, a: string, b: string)
    requires Dirs(p) == [a] && Dirs(q) == [a, b] && a != ""
    ensures Index([p, q]).Keys == {a, a + "/" + b}
    ensures Index([p, q])[a] == DirEntry([FileName(p)], {b})
    ensures Index([p, q])[a + "/" + b] == DirEntry([FileName(q)], {})
  {
    var ab := a + "/" + b;
    NestedPairKeys(p, q, a, b);
    NestedPairAt(p, q, a, b, a);
    NestedPairAt(p, q, a, b, ab);
  }

  lemma NestedPairKeys(p: string, q: string, a: string, b: string)
    requires Dirs(p) == [a] && Dirs(q) == [a, b] && a != ""
    ensures Keys([p, q]) == {a, a + "/" + b}
  {
    OneLevel(p, a);
    TwoLevels(q, a, b);
    PairOfPaths(p, q, a);
  }

  lemma NestedPairAt(p: string, q: string, a: string, b: string, k: string)
    requires Dirs(p) == [a] && Dirs(q) == [a, b] && a != ""
    ensures k == a ==> FilesOf([p, q], k) == [FileName(p)] && SubDirsOf([p, q], k) == {b}
    ensures k == a + "/" + b ==> FilesOf([p, q], k) == [FileName(q)] && SubDirsOf([p, q], k) == {}
  {
    var ab := a + "/" + b;
    assert ab != a by { assert |ab| > |a|; }
    OneLevel(p, a);
    TwoLevels(q, a, b);
    PairOfPaths(p, q, k);
    assert PathSubDirs(p, k) == {} && PathSubDirs(q, k) == if k == a then {b} else {};
    assert PathFiles(p, k) == if k == a then [FileName(p)] else [];
    assert PathFiles(q, k) == if k == ab then [FileName(q)] else [];
  }

  lemma MapOfTwo<K, V>(m: map<K, V>, x: K, y: K, vx: V, vy: V)
    requires m.Keys == {x, y} && x in m && y in m && m[x] == vx && m[y] == vy
    ensures m == map[x := vx, y := vy]
  {
  }

  lemma FirstExamplePath()
    ensures Dirs("a/x.md") == ["a"] && FileName("a/x.md") == "x.md"
  {
    var p := ["a", "x.md"];
    PathOfPieces(p);
    assert Join(p, "/") == "a/x.md";
  }

  lemma SecondExamplePath()
    ensures Dirs("a/b/y.md") == ["a", "b"] && FileName("a/b/y.md") == "y.md"
  {
    var q := ["a", "b", "y.md"];
    PathOfPieces(q);
    assert Join(q, "/") == "a/b/y.md";
  }

  /** A path with a backslash, as `relative` gives on Windows: `AI\aider.md`
      has the directory `AI` and the name `aider.md`, as `AI/aider.md` does. */
  lemma BackslashPathExample()
    ensures Dirs("AI\\aider.md") == ["AI"] && FileName("AI\\aider.md") == "aider.md"
  {
    ExamplePieces();
    assert "AI\\aider.md" == "AI" + ['\\'] + "aider.md";
    SplitAfterSeparator("AI", '\\', "aider.md");
    SplitPiece("aider.md");
  }

  lemma ExamplePieces()
    ensures forall j :: 0 <= j < |"AI"| ==> !IsSep("AI"[j])
    ensures forall j :: 0 <= j < |"aider.md"| ==> !IsSep("aider.md"[j])
  {
    var a, n := "AI", "aider.md";
    assert a[0] == 'A' && a[1] == 'I';
    assert n[0] == 'a' && n[1] == 'i' && n[2] == 'd' && n[3] == 'e';
    assert n[4] == 'r' && n[5] == '.' && n[6] == 'm' && n[7] == 'd';
  }

  /** `a/x.md` and `a/b/y.md` give the keys `a` and `a/b`: `x.md` is filed under
      `a`, which lists `b` as its subdirectory, and `y.md` under `a/b`. */
  lemma TwoDocumentsExample()
    ensures Index(["a/x.md", "a/b/y.md"]) == map["a" := DirEntry(["x.md"], {"b"}), "a/b" := DirEntry(["y.md"], {})]
  {
    FirstExamplePath();
    SecondExamplePath();
    NestedPair("a/x.md", "a/b/y.md", "a", "b");
    assert "a" + "/" + "b" == "a/b";
  }
}
