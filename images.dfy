/** Which input directories hold nothing but images (main.ts:45-76): such a
    directory is copied to the output unchanged instead of being rendered.
    The directory listing that `Deno.readDir` produces is given as a tree. */
module Images {
  import opened Strings

  const ImageExtensions: seq<string> := [".png", ".jpg", ".jpeg", ".gif", ".svg", ".webp", ".bmp"]

  /** `fileName.substring(fileName.lastIndexOf('.'))`: the text from the last dot on;
      with no dot, `lastIndexOf` gives -1, `substring` reads that as 0 and the
      whole name is returned. */
  function Extension(name: string): (ext: string)
    ensures '.' in name ==> |ext| > 0 && ext[0] == '.' && '.' !in ext[1..] && EndsWith(name, ext)
    ensures '.' !in name ==> ext == name
  {
    var i := LastIndexOf(name, '.');
    if i < 0 then name
    else
      assert forall c :: c in name[i..][1..] ==> c != '.' by {
        forall c | c in name[i..][1..] ensures c != '.' {
          var j :| 0 <= j < |name[i..][1..]| && name[i..][1..][j] == c;
          assert name[i + 1 + j] == c;
        }
      }
      name[i..]
  }

  /** `isImageFile`: the lower-cased extension is one of the seven image extensions.
      An image name therefore has a dot: `png` alone is no image. */
  predicate IsImageFile(name: string): (image: bool)
    ensures image ==> '.' in name
  {
    ToLower(Extension(name)) in ImageExtensions
  }

  /** Every extension of the list is a dot followed by characters other than a dot. */
  lemma ExtensionShape(ext: string)
    requires ext in ImageExtensions
    ensures |ext| > 1 && ext[0] == '.' && forall j :: 1 <= j < |ext| ==> ext[j] != '.'
  {
  }

  /** `isImageFile` holds exactly when the lower-cased name ends with one of the
      seven extensions: comparing from the last dot loses nothing. */
  lemma ImageIffEnding(name: string)
    ensures IsImageFile(name) <==>
            exists k :: 0 <= k < |ImageExtensions| && EndsWith(ToLower(name), ImageExtensions[k])
  {
    LowerSuffix(name, Extension(name));
    if IsImageFile(name) {
      var k :| 0 <= k < |ImageExtensions| && ImageExtensions[k] == ToLower(Extension(name));
      assert EndsWith(ToLower(name), ImageExtensions[k]);
    } else {
      forall k | 0 <= k < |ImageExtensions|
        ensures !EndsWith(ToLower(name), ImageExtensions[k])
      {
        if EndsWith(ToLower(name), ImageExtensions[k]) {
          EndingPinsExtension(name, ImageExtensions[k]);
        }
      }
    }
  }

  /** Lower-casing commutes with taking a suffix. */
  lemma LowerSuffix(name: string, ext: string)
    requires EndsWith(name, ext)
    ensures EndsWith(ToLower(name), ToLower(ext))
  {
    var n := |name| - |ext|;
    assert ToLower(name)[n..] == ToLower(ext) by {
      forall j | 0 <= j < |ext| ensures ToLower(name)[n..][j] == ToLower(ext)[j] {
        assert name[n + j] == ext[j];
      }
    }
  }

  /** When the lower-cased name ends with an extension of the list, that
      extension is exactly what `isImageFile` extracts and compares. */
  lemma EndingPinsExtension(name: string, ext: string)
    requires ext in ImageExtensions
    requires EndsWith(ToLower(name), ext)
    ensures ToLower(Extension(name)) == ext
  {
    var n := |name| - |ext|;
    ExtensionShape(ext);
    assert LowerChar(name[n]) == '.';
    assert name[n] == '.';
    assert '.' in name;
    forall j | n < j < |name| ensures name[j] != '.' {
      assert ToLower(name)[j] == ext[j - n];
    }
    var i := LastIndexOf(name, '.');
    assert i == n;
    assert ToLower(name[n..]) == ext by {
      forall j | 0 <= j < |ext| ensures ToLower(name[n..])[j] == ext[j] {
        assert ToLower(name)[n + j] == ext[j];
      }
    }
  }

  /** A name without a dot is never an image, even `png` itself. */
  lemma NoDotNoImage(name: string)
    requires '.' !in name
    ensures !IsImageFile(name)
  {
    if |name| > 0 {
      assert name[0] != '.';
      assert ToLower(name)[0] != '.';
    }
    forall ext | ext in ImageExtensions ensures ToLower(name) != ext {
      ExtensionShape(ext);
    }
  }

  /** The test ignores case: `PHOTO.PNG` is an image exactly when `photo.png` is. */
  lemma CaseInsensitive(name: string)
    ensures IsImageFile(ToLower(name)) == IsImageFile(name)
  {
    LowerExtension(name);
    var e := Extension(name);
    LowerIdempotent(e);
    assert ToLower(Extension(ToLower(name))) == ToLower(e);
  }

  /** Lower-casing keeps every dot where it was, so it commutes with taking the extension. */
  lemma LowerExtension(name: string)
    ensures Extension(ToLower(name)) == ToLower(Extension(name))
  {
    var l := ToLower(name);
    if '.' in name {
      var i := LastIndexOf(name, '.');
      assert l[i] == '.';
      assert forall j :: i < j < |l| ==> l[j] != '.' by {
        forall j | i < j < |l| ensures l[j] != '.' {
          assert l[j] == LowerChar(name[j]);
        }
      }
      ExtensionAt(l, i);
      LowerSlice(name, i);
      ExtensionAt(name, i);
    } else {
      assert '.' !in l by {
        forall c | c in l ensures c != '.' {
          var j :| 0 <= j < |l| && l[j] == c;
          assert l[j] == LowerChar(name[j]);
        }
      }
    }
  }

  lemma LowerSlice(name: string, i: nat)
    requires i <= |name|
    ensures ToLower(name)[i..] == ToLower(name[i..])
  {
  }

  /** The dot at `i` is the last one, so the extension starts there. */
  lemma ExtensionAt(name: string, i: int)
    requires 0 <= i < |name| && name[i] == '.'
    requires forall j :: i < j < |name| ==> name[j] != '.'
    ensures Extension(name) == name[i..]
  {
    var r := LastIndexOf(name, '.');
    assert r == i;
  }

  /** One entry of a directory listing: a file, a directory with its own
      listing, or anything else (a symbolic link, say). */
  datatype Entry = File(name: string) | Dir(name: string, entries: seq<Entry>) | Other(name: string)

  /** An entry that leaves its directory eligible: an image file, an
      image-only subdirectory, or an entry that is neither file nor directory. */
  predicate Admissible(e: Entry)
    decreases e
  {
    match e
    case File(n) => IsImageFile(n)
    case Dir(_, es) => ImageOnly(es)
    case Other(_) => true
  }

  /** A directory is image-only when it has at least one entry and every entry is admissible. */
  predicate ImageOnly(entries: seq<Entry>)
    decreases entries
  {
    |entries| > 0 && forall i :: 0 <= i < |entries| ==> Admissible(entries[i])
  }

  /** `isImageOnlyDirectory`: scans the listing in order, descends into
      subdirectories, and stops at the first entry that disqualifies. */
  method IsImageOnlyDirectory(entries: seq<Entry>) returns (imageOnly: bool)
    ensures imageOnly == ImageOnly(entries)
    decreases entries
  {
    var hasFiles := false;
    var allImagesOrDirs := true;
    var i := 0;
    while i < |entries|
      invariant 0 <= i <= |entries|
      invariant hasFiles == (i > 0)
      invariant allImagesOrDirs
      invariant forall k :: 0 <= k < i ==> Admissible(entries[k])
    {
      var entry := entries[i];
      hasFiles := true;
      var admissible := CheckEntry(entry);
      if !admissible {
        Disqualified(entries, i);
        allImagesOrDirs := false;
        break;
      }
      assert Admissible(entries[i]);
      i := i + 1;
    }
    imageOnly := hasFiles && allImagesOrDirs;
  }

  /** The two tests the loop body makes on one entry: a file must be an image,
      a directory must itself be image-only; anything else passes. */
  method CheckEntry(entry: Entry) returns (admissible: bool)
    ensures admissible == Admissible(entry)
    decreases entry
  {
    admissible := true;
    if entry.File? && !IsImageFile(entry.name) {
      admissible := false;
    }
    if entry.Dir? {
      var subDirImagesOnly := IsImageOnlyDirectory(entry.entries);
      if !subDirImagesOnly {
        admissible := false;
      }
    }
  }

  /** One entry that is not admissible disqualifies the whole directory. */
  lemma Disqualified(entries: seq<Entry>, i: int)
    requires 0 <= i < |entries| && !Admissible(entries[i])
    ensures !ImageOnly(entries)
  {
  }

  /** An empty directory is never image-only. */
  lemma EmptyNotImageOnly()
    ensures !ImageOnly([])
  {
  }

  /** The answer does not depend on the order in which the entries are listed. */
  lemma OrderIrrelevant(entries: seq<Entry>, listed: seq<Entry>)
    requires multiset(entries) == multiset(listed)
    ensures ImageOnly(entries) == ImageOnly(listed)
  {
    assert |entries| == |multiset(entries)| == |listed|;
    if ImageOnly(entries) {
      forall j | 0 <= j < |listed| ensures Admissible(listed[j]) {
        assert listed[j] in multiset(entries);
      }
    }
    if ImageOnly(listed) {
      forall j | 0 <= j < |entries| ensures Admissible(entries[j]) {
        assert entries[j] in multiset(listed);
      }
    }
  }

  /** Entries that are neither files nor directories never disqualify, and they
      count as content: a directory holding only such an entry is image-only. */
  lemma OtherEntriesIgnored(entries: seq<Entry>, name: string)
    ensures ImageOnly(entries + [Other(name)]) <==>
            (|entries| == 0 || ImageOnly(entries))
  {
    var all := entries + [Other(name)];
    assert all[|entries|] == Other(name);
    if ImageOnly(all) {
      forall j | 0 <= j < |entries| ensures Admissible(entries[j]) {
        assert all[j] == entries[j];
      }
    }
  }

  /** One non-image file anywhere below disqualifies the directory, even next to an image. */
  lemma NestedNonImageDisqualifies(image: string, dir: string, file: string)
    requires !IsImageFile(file)
    ensures !ImageOnly([File(image), Dir(dir, [File(file)])])
  {
    var inner := [File(file)];
    assert inner[0] == File(file);
    assert !ImageOnly(inner);
    var outer := [File(image), Dir(dir, inner)];
    assert outer[1] == Dir(dir, inner);
    assert !Admissible(outer[1]);
  }

  /** Images, also inside nested directories, make the directory image-only. */
  lemma NestedImagesQualify(image: string, dir: string, nested: string)
    requires IsImageFile(image) && IsImageFile(nested)
    ensures ImageOnly([File(image), Dir(dir, [File(nested)])])
  {
    var inner := [File(nested)];
    assert inner[0] == File(nested);
    assert ImageOnly(inner);
    var outer := [File(image), Dir(dir, inner)];
    forall i | 0 <= i < |outer| ensures Admissible(outer[i]) {
      if i == 0 {
        assert outer[i] == File(image);
      } else {
        assert outer[i] == Dir(dir, inner);
      }
    }
  }

  /** Upper-case extensions count: `A.PNG` is an image. */
  lemma UpperCaseImage()
    ensures IsImageFile("A.PNG")
  {
    var name := "A.PNG";
    var ext := name[1..];
    assert name[1] == '.' && ext == ['.', 'P', 'N', 'G'];
    ExtensionAt(name, 1);
    var lower := ToLower(ext);
    assert lower == [LowerChar('.'), LowerChar('P'), LowerChar('N'), LowerChar('G')];
    assert lower == ".png";
    assert lower == ImageExtensions[0];
  }

  /** `notes.txt` is not an image. */
  lemma TextIsNoImage()
    ensures !IsImageFile("notes.txt")
  {
    var name := "notes.txt";
    var ext := name[5..];
    assert name[5] == '.' && ext == ['.', 't', 'x', 't'];
    ExtensionAt(name, 5);
    var lower := ToLower(ext);
    assert lower == [LowerChar('.'), LowerChar('t'), LowerChar('x'), LowerChar('t')];
    assert lower == ".txt";
    assert lower !in ImageExtensions;
  }
}
