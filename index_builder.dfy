/**
 * generate_index.py: `generate_npy_index`, the loop that turns a folder of
 * attraction photos into a feature dictionary keyed by attraction ID. The
 * folder listing is a parameter (in `os.listdir` order) and opening the
 * image plus the network's forward pass is an opaque `extract` that may
 * fail; saving the dictionary is left out.
 */
module IndexBuilder {
  import opened Optional
  import opened Strings
  import opened Seqs
  import opened OrderedDict

  // ---------------------------------------------------------------------
  // The filename filter
  // ---------------------------------------------------------------------

  /** `str.lower` on the ASCII letters. */
  function LowerChar(c: char): (r: char)
    ensures 'A' <= c <= 'Z' ==> 'a' <= r <= 'z'
    ensures !('A' <= c <= 'Z') ==> r == c
  {
    if 'A' <= c <= 'Z' then (c as int + 32) as char else c
  }

  function Lower(s: string): (r: string)
    ensures |r| == |s|
    ensures forall i | 0 <= i < |s| :: r[i] == LowerChar(s[i])
  {
    seq(|s|, i requires 0 <= i < |s| => LowerChar(s[i]))
  }

  const ValidExtensions: seq<string> := [".jpg", ".jpeg", ".png", ".webp"]

  /** `s.endswith(tuple)`: true when any suffix of the tuple matches. */
  function EndsWithAny(s: string, suffixes: seq<string>): (r: bool)
    ensures r <==> exists k | 0 <= k < |suffixes| :: EndsWith(s, suffixes[k])
  {
    if suffixes == [] then false
    else if EndsWith(s, suffixes[0]) then true
    else
      assert forall k | 1 <= k < |suffixes| :: suffixes[k] == suffixes[1..][k - 1];
      EndsWithAny(s, suffixes[1..])
  }

  /** `f.lower().endswith(valid_extensions)`. */
  predicate IsImageFile(name: string) {
    EndsWithAny(Lower(name), ValidExtensions)
  }

  // ---------------------------------------------------------------------
  // The ID: `os.path.splitext(filename)[0]`
  // ---------------------------------------------------------------------

  /** The index of the last '.' in `s`, if any. */
  function LastDot(s: string): (r: Option<nat>)
    ensures r.Some? ==> r.value < |s| && s[r.value] == '.' && forall j | r.value < j < |s| :: s[j] != '.'
    ensures r.None? ==> forall j | 0 <= j < |s| :: s[j] != '.'
  {
    if s == [] then None
    else if s[|s| - 1] == '.' then Some(|s| - 1)
    else LastDot(s[..|s| - 1])
  }

  predicate AllDots(s: string) {
    forall j | 0 <= j < |s| :: s[j] == '.'
  }

  /**
   * The stem of a listed file name (no directory part): everything before
   * the last dot, unless that dot is preceded only by dots (".jpg" is all
   * stem), in which case the whole name.
   */
  function Stem(name: string): (r: string)
    ensures |r| <= |name| && r == name[..|r|]
    ensures r == name <==> LastDot(name).None? || AllDots(name[..LastDot(name).value])
    ensures r != name ==> name[|r|] == '.' && forall j | |r| < j < |name| :: name[j] != '.'
  {
    match LastDot(name)
    case None => name
    case Some(d) => if AllDots(name[..d]) then name else name[..d]
  }

  /** A dot with no dot after it is the last dot. */
  lemma LastDotAt(s: string, d: nat)
    requires d < |s| && s[d] == '.' && forall j | d < j < |s| :: s[j] != '.'
    ensures LastDot(s) == Some(d)
  {
  }

  /** The examples in the source's own comment, and the edge cases of `splitext`. */
  lemma StemExamples()
    ensures Stem("101.jpg") == "101"
    ensures Stem("101.png") == "101"
    ensures Stem("a.b.webp") == "a.b"
    ensures Stem(".jpg") == ".jpg"
  {
    LastDotAt("101.jpg", 3);
    LastDotAt("101.png", 3);
    LastDotAt("a.b.webp", 3);
    assert "a.b.webp"[..3] == "a.b";
    assert !AllDots("a.b") by {
      assert "a.b"[0] != '.';
    }
    LastDotAt(".jpg", 0);
    assert "101.jpg"[..3] == "101" && "101.png"[..3] == "101";
    assert !AllDots("101") by {
      assert "101"[0] != '.';
    }
  }

  /** The filter ignores case: "A.JPG" is an image file. */
  lemma UpperCaseImageFile()
    ensures IsImageFile("A.JPG")
  {
    assert Lower("A.JPG") == "a.jpg";
    assert "a.jpg"[5 - 4..] == ".jpg";
  }

  /** Names that already end in a listed extension are image files, whatever comes before it. */
  lemma ListedExtensionImageFile(stem: string, k: nat)
    requires k < |ValidExtensions| && Lower(stem) == stem
    ensures IsImageFile(stem + ValidExtensions[k])
  {
    var name := stem + ValidExtensions[k];
    assert Lower(ValidExtensions[k]) == ValidExtensions[k];
    assert Lower(name) == name;
    assert name[|name| - |ValidExtensions[k]|..] == ValidExtensions[k];
  }

  /** A name without a listed extension is not an image file. */
  lemma OtherFilesSkipped()
    ensures !IsImageFile("notes.txt") && !IsImageFile("jpg")
  {
    assert Lower("notes.txt") == "notes.txt";
    assert "notes.txt"[9 - 4..] == ".txt";
    assert "notes.txt"[9 - 5..] == "s.txt";
    assert Lower("jpg") == "jpg";
  }

  // ---------------------------------------------------------------------
  // The dictionary-building loop
  // ---------------------------------------------------------------------

  /** One file of the loop: `feature_db[attr_id] = feature`, or nothing when the file fails. */
  function Step<F>(db: Dict<string, F>, file: string, extract: string -> Option<F>): Dict<string, F> {
    match extract(file)
    case None => db
    case Some(feature) => Set(db, Stem(file), feature)
  }

  /** The dictionary after the loop has gone over `files`, starting from `db`. */
  function Insertions<F>(db: Dict<string, F>, files: seq<string>, extract: string -> Option<F>): (r: Dict<string, F>)
    decreases |files|
  {
    if files == [] then db
    else Step(Insertions(db, files[..|files| - 1], extract), files[|files| - 1], extract)
  }

  /** The index `generate_npy_index` builds from the listing `files`. */
  function FeatureIndex<F>(files: seq<string>, extract: string -> Option<F>): Dict<string, F> {
    Insertions([], Filter(files, IsImageFile), extract)
  }

  /** `generate_npy_index`: filter the listing, then insert each file's features under its ID, skipping failures. */
  method GenerateNpyIndex<F>(files: seq<string>, extract: string -> Option<F>) returns (featureDb: Dict<string, F>)
    ensures featureDb == FeatureIndex(files, extract)
    ensures Valid(featureDb)
  {
    featureDb := [];
    var imageFiles := Filter(files, IsImageFile);
    for i := 0 to |imageFiles|
      invariant featureDb == Insertions([], imageFiles[..i], extract)
      invariant Valid(featureDb)
    {
      var filename := imageFiles[i];
      assert imageFiles[..i + 1][..i] == imageFiles[..i];
      match extract(filename)
      case None =>
      case Some(feature) =>
        var attrId := Stem(filename);
        SetValid(featureDb, attrId, feature);
        featureDb := Set(featureDb, attrId, feature);
    }
    assert imageFiles[..|imageFiles|] == imageFiles;
  }

  /** Going over `a` then `b` is going over `a + b`. */
  lemma {:induction false} InsertionsConcat<F>(db: Dict<string, F>, a: seq<string>, b: seq<string>, extract: string -> Option<F>)
    ensures Insertions(db, a + b, extract) == Insertions(Insertions(db, a, extract), b, extract)
    decreases |b|
  {
    if b == [] {
      assert a + b == a;
    } else {
      var init := b[..|b| - 1];
      assert (a + b)[..|a + b| - 1] == a + init;
      InsertionsConcat(db, a, init, extract);
    }
  }

  /** The keys of the index are exactly the IDs of the image files whose extraction succeeded. */
  ghost predicate ProducesKey<F>(files: seq<string>, extract: string -> Option<F>, key: string) {
    exists f | f in files :: IsImageFile(f) && extract(f).Some? && Stem(f) == key
  }

  lemma {:induction false} InsertionsKeys<F>(db: Dict<string, F>, files: seq<string>, extract: string -> Option<F>, key: string)
    ensures key in Keys(Insertions(db, files, extract)) <==>
      key in Keys(db) || exists f | f in files :: extract(f).Some? && Stem(f) == key
    decreases |files|
  {
    if files != [] {
      var init := files[..|files| - 1];
      var last := files[|files| - 1];
      assert files == init + [last];
      InsertionsKeys(db, init, extract, key);
      var before := Insertions(db, init, extract);
      if extract(last).Some? {
        SetGet(before, Stem(last), extract(last).value, key);
      }
      if exists f | f in files :: extract(f).Some? && Stem(f) == key {
        var f :| f in files && extract(f).Some? && Stem(f) == key;
        assert f in init || f == last;
      }
    }
  }

  lemma FeatureIndexKeys<F>(files: seq<string>, extract: string -> Option<F>, key: string)
    ensures key in Keys(FeatureIndex(files, extract)) <==> ProducesKey(files, extract, key)
  {
    var images := Filter(files, IsImageFile);
    InsertionsKeys([], images, extract, key);
    if ProducesKey(files, extract, key) {
      var f :| f in files && IsImageFile(f) && extract(f).Some? && Stem(f) == key;
      assert f in images;
    }
  }

  /** A file whose processing fails leaves the index exactly as if it were not in the folder. */
  lemma FailedFileSkipped<F>(a: seq<string>, failed: string, b: seq<string>, extract: string -> Option<F>)
    requires extract(failed).None?
    ensures FeatureIndex(a + [failed] + b, extract) == FeatureIndex(a + b, extract)
  {
    var keep := IsImageFile;
    FilterConcat(a + [failed], b, keep);
    FilterConcat(a, [failed], keep);
    FilterConcat(a, b, keep);
    var fa := Filter(a, keep);
    var fb := Filter(b, keep);
    var ff := Filter([failed], keep);
    InsertionsConcat([], fa + ff, fb, extract);
    InsertionsConcat([], fa, fb, extract);
    if ff != [] {
      assert ff == [failed];
      InsertionsConcat([], fa, ff, extract);
      assert Insertions(Insertions([], fa, extract), [failed], extract) == Insertions([], fa, extract) by {
        assert [failed][..0] == [];
      }
    } else {
      assert fa + ff == fa;
    }
  }

  /**
   * When two files share an ID, the one processed later wins: the ID reads
   * the features of the last successful file that carries it.
   */
  lemma {:induction false} LaterFileWins<F>(db: Dict<string, F>, a: seq<string>, file: string, b: seq<string>, extract: string -> Option<F>)
    requires extract(file).Some?
    requires forall g | g in b :: extract(g).Some? ==> Stem(g) != Stem(file)
    ensures Get(Insertions(db, a + [file] + b, extract), Stem(file)) == extract(file)
    decreases |b|
  {
    if b == [] {
      assert a + [file] + b == a + [file];
      assert (a + [file])[..|a|] == a;
      SetGet(Insertions(db, a, extract), Stem(file), extract(file).value, Stem(file));
    } else {
      var init := b[..|b| - 1];
      var last := b[|b| - 1];
      assert (a + [file] + b)[..|a + [file] + b| - 1] == a + [file] + init;
      assert forall g | g in init :: g in b;
      LaterFileWins(db, a, file, init, extract);
      var before := Insertions(db, a + [file] + init, extract);
      if extract(last).Some? {
        SetGet(before, Stem(last), extract(last).value, Stem(file));
      }
    }
  }

  /** Both files of the shared-ID example pass the filter. */
  lemma SharedIdListing(files: seq<string>)
    requires files == ["101.jpg", "101.png"]
    ensures Filter(files, IsImageFile) == files
  {
    SharedIdFilesListed();
    assert forall x | x in files :: IsImageFile(x);
    FilterAll(files, IsImageFile);
  }

  lemma SharedIdFilesListed()
    ensures IsImageFile("101.jpg") && IsImageFile("101.png")
  {
    ListedExtensionImageFile("101", 0);
    ListedExtensionImageFile("101", 2);
    assert "101" + ValidExtensions[0] == "101.jpg";
    assert "101" + ValidExtensions[2] == "101.png";
  }

  /** "101.jpg" then "101.png": the index keeps one entry, "101", holding the PNG's features. */
  lemma SharedIdExample<F>(extract: string -> Option<F>, jpg: F, png: F)
    requires extract("101.jpg") == Some(jpg) && extract("101.png") == Some(png)
    ensures FeatureIndex(["101.jpg", "101.png"], extract) == [("101", png)]
  {
    var files := ["101.jpg", "101.png"];
    SharedIdListing(files);
    var first := Insertions([], files[..1], extract);
    SharedIdFirstInsertion(files[..1], extract, jpg);
    assert files[..2] == files;
    assert Insertions([], files, extract) == Step(first, "101.png", extract);
    StemExamples();
  }

  /** After "101.jpg" alone the index holds its features under "101". */
  lemma SharedIdFirstInsertion<F>(files: seq<string>, extract: string -> Option<F>, jpg: F)
    requires files == ["101.jpg"] && extract("101.jpg") == Some(jpg)
    ensures Insertions([], files, extract) == [("101", jpg)]
  {
    assert files[..0] == [];
    StemExamples();
  }
}
