/** `WatermarkTool.get_image_files`: the directory entries the tool will process, and
    the POSIX path helpers (`os.path.join`, `os.path.basename`) it relies on. */
module ImageFiles {
  import opened Wrappers

  /** The file extensions the tool accepts, compared against the lower-cased name. */
  const SupportedFormats: seq<string> := [".jpg", ".jpeg", ".png", ".tiff", ".bmp"]

  function ToLowerChar(c: char): char {
    if 'A' <= c <= 'Z' then ((c as int) + 32) as char else c
  }

  /** `str.lower()` on the ASCII letters: no capital is left, every capital becomes the
      small letter at the same place in the alphabet, and every other character is kept. */
  function ToLower(s: string): (r: string)
    ensures |r| == |s|
    ensures forall i :: 0 <= i < |r| ==> !('A' <= r[i] <= 'Z')
    ensures forall i :: 0 <= i < |s| && 'A' <= s[i] <= 'Z' ==>
                          'a' <= r[i] <= 'z' && r[i] as int - 'a' as int == s[i] as int - 'A' as int
    ensures forall i :: 0 <= i < |s| && !('A' <= s[i] <= 'Z') ==> r[i] == s[i]
  {
    seq(|s|, i requires 0 <= i < |s| => ToLowerChar(s[i]))
  }

  /** Lower-casing twice is lower-casing once. */
  lemma ToLowerIdempotent(s: string)
    ensures ToLower(ToLower(s)) == ToLower(s)
  {
  }

  predicate EndsWith(s: string, suffix: string) {
    |suffix| <= |s| && s[|s| - |suffix|..] == suffix
  }

  /** `s.endswith(suffixes)` for a tuple of suffixes, trying them in turn. */
  predicate EndsWithAny(s: string, suffixes: seq<string>) {
    |suffixes| > 0 && (EndsWith(s, suffixes[0]) || EndsWithAny(s, suffixes[1..]))
  }

  /** Trying the suffixes in turn finds one exactly when some suffix of the tuple ends `s`. */
  lemma {:induction false} EndsWithAnyExists(s: string, suffixes: seq<string>)
    ensures EndsWithAny(s, suffixes) <==> exists k :: 0 <= k < |suffixes| && EndsWith(s, suffixes[k])
  {
    if |suffixes| > 0 {
      EndsWithAnyExists(s, suffixes[1..]);
      if !EndsWith(s, suffixes[0]) && exists k :: 0 <= k < |suffixes| && EndsWith(s, suffixes[k]) {
        var k :| 0 <= k < |suffixes| && EndsWith(s, suffixes[k]);
        assert suffixes[1..][k - 1] == suffixes[k];
      }
    }
  }

  /** `filename.lower().endswith(supported_formats)`: the lower-cased name ends in one of the
      supported extensions. */
  predicate IsSupported(filename: string)
    ensures IsSupported(filename) <==>
              exists k :: 0 <= k < |SupportedFormats| && EndsWith(ToLower(filename), SupportedFormats[k])
  {
    EndsWithAnyExists(ToLower(filename), SupportedFormats);
    EndsWithAny(ToLower(filename), SupportedFormats)
  }

  /** The filter ignores case: a name is kept exactly when its lower-cased form would be. */
  lemma SupportedIgnoresCase(filename: string)
    ensures IsSupported(filename) == IsSupported(ToLower(filename))
  {
    ToLowerIdempotent(filename);
  }

  /** `os.path.join(directory, name)` for two components. */
  function Join(directory: string, name: string): (path: string)
    ensures EndsWith(path, name)
  {
    if |name| > 0 && name[0] == '/' then name
    else if directory == [] || directory[|directory| - 1] == '/' then directory + name
    else directory + "/" + name
  }

  /** `os.path.basename(path)`: everything after the last '/'. */
  function Basename(path: string): (name: string)
    ensures '/' !in name
  {
    if path == [] || path[|path| - 1] == '/' then []
    else Basename(path[..|path| - 1]) + [path[|path| - 1]]
  }

  /** A name without '/' is the base name of any path that ends in "/name". */
  lemma {:induction false} BasenameAfterSlash(prefix: string, name: string)
    requires '/' !in name
    requires prefix == [] || prefix[|prefix| - 1] == '/'
    ensures Basename(prefix + name) == name
  {
    if name != [] {
      var init := name[..|name| - 1];
      assert (prefix + name)[..|prefix + name| - 1] == prefix + init;
      BasenameAfterSlash(prefix, init);
      assert name == init + [name[|name| - 1]];
    } else {
      assert prefix + name == prefix;
    }
  }

  /** Joining a directory and a directory entry and taking the base name gives the entry back,
      so the output file of each image has the image's own name. */
  lemma BasenameOfJoin(directory: string, name: string)
    requires '/' !in name
    ensures Basename(Join(directory, name)) == name
  {
    if directory == [] || directory[|directory| - 1] == '/' {
      BasenameAfterSlash(directory, name);
    } else {
      BasenameAfterSlash(directory + "/", name);
    }
  }

  /** The paths `get_image_files` collects from the listing `names`, in listing order. */
  function ImagePaths(directory: string, names: seq<string>): (paths: seq<string>)
    ensures |paths| <= |names|
  {
    if names == [] then []
    else
      var last := names[|names| - 1];
      ImagePaths(directory, names[..|names| - 1]) + (if IsSupported(last) then [Join(directory, last)] else [])
  }

  /** `get_image_files`: a listing that could not be read yields no files; otherwise the
      supported entries, joined to the directory, in the order of the listing. */
  method GetImageFiles(directory: string, listing: Option<seq<string>>) returns (imageFiles: seq<string>)
    ensures listing.None? ==> imageFiles == []
    ensures listing.Some? ==> imageFiles == ImagePaths(directory, listing.value)
  {
    imageFiles := [];
    if listing.None? {
      return;
    }
    var names := listing.value;
    var i := 0;
    while i < |names|
      invariant 0 <= i <= |names|
      invariant imageFiles == ImagePaths(directory, names[..i])
    {
      var filename := names[i];
      assert names[..i + 1][..i] == names[..i];
      if IsSupported(filename) {
        imageFiles := imageFiles + [Join(directory, filename)];
      }
      i := i + 1;
    }
    assert names[..i] == names;
  }

  /** Filtering a listing piecewise is filtering it whole: the kept files keep the listing's order. */
  lemma {:induction false} ImagePathsAppend(directory: string, a: seq<string>, b: seq<string>)
    ensures ImagePaths(directory, a + b) == ImagePaths(directory, a) + ImagePaths(directory, b)
  {
    if b == [] {
      assert a + b == a;
    } else {
      var init := b[..|b| - 1];
      assert (a + b)[..|a + b| - 1] == a + init;
      ImagePathsAppend(directory, a, init);
    }
  }

  /** A path is collected exactly when some entry of the listing is a supported file that joins to it. */
  lemma {:induction false} ImagePathsMembership(directory: string, names: seq<string>, path: string)
    ensures path in ImagePaths(directory, names) <==>
            exists name :: name in names && IsSupported(name) && path == Join(directory, name)
  {
    if names != [] {
      var init, last := names[..|names| - 1], names[|names| - 1];
      ImagePathsMembership(directory, init, path);
      assert names == init + [last];
      if path in ImagePaths(directory, names) {
        if path in ImagePaths(directory, init) {
          var name :| name in init && IsSupported(name) && path == Join(directory, name);
          assert name in names;
        } else {
          assert last in names && IsSupported(last) && path == Join(directory, last);
        }
      } else {
        forall name | name in names && IsSupported(name)
          ensures path != Join(directory, name)
        {
          if name !in init {
            assert name == last;
          }
        }
      }
    }
  }

  /** "A.JPG" is kept because the comparison is on the lower-cased name. */
  lemma KeepsUpperCaseJpg(filename: string)
    requires filename == "A.JPG"
    ensures IsSupported(filename)
  {
    var lower := ToLower(filename);
    assert lower == "a.jpg";
    assert EndsWith(lower, SupportedFormats[0]);
  }

  /** "a.gif" ends in none of the supported extensions. */
  lemma SkipsGif(filename: string)
    requires filename == "a.gif"
    ensures !IsSupported(filename)
  {
    var lower := ToLower(filename);
    assert |lower| == 5 && lower[0] == 'a' && lower[4] == 'f' by {
      assert filename[0] == 'a' && filename[4] == 'f';
    }
    var formats := SupportedFormats;
    assert !EndsWith(lower, formats[0]) by { assert lower[4] != formats[0][3]; }
    assert !EndsWith(lower, formats[1]) by { assert lower[4] != formats[1][4]; }
    assert !EndsWith(lower, formats[2]) by { assert lower[4] != formats[2][3]; }
    assert !EndsWith(lower, formats[3]) by { assert lower[0] != formats[3][0]; }
    assert !EndsWith(lower, formats[4]) by { assert lower[4] != formats[4][3]; }
    assert !EndsWithAny(lower, formats[4..]) by { assert formats[4..][1..] == []; }
    assert !EndsWithAny(lower, formats[3..]) by { assert formats[3..][1..] == formats[4..]; }
    assert !EndsWithAny(lower, formats[2..]) by { assert formats[2..][1..] == formats[3..]; }
    assert !EndsWithAny(lower, formats[1..]) by { assert formats[1..][1..] == formats[2..]; }
  }
}
