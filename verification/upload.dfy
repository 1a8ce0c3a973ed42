/** The image upload service: which files it accepts (file-name extension
    and declared MIME type, then size), the name and URL under which an
    accepted file is stored, the per-file accounting of a bulk upload, and
    the storage totals. File contents are represented by their sizes; the
    image optimizer, the identifier generator and the file system are
    inputs. */
module Upload {
  import opened Common
  import opened Json

  const AllowedExtensions: set<string> := {".jpg", ".jpeg", ".png", ".webp", ".gif"}
  const AllowedMime: set<string> := {"image/jpeg", "image/png", "image/webp", "image/gif"}
  const MaxFileSize: int := 5 * 1024 * 1024
  const MaxBulkFiles: int := 10
  const Categories: seq<string> := ["promotions", "brands", "general"]

  // ------------------------------------------------------------ file names

  /** The last component of a slash-separated path. */
  function BaseName(path: string): (r: string)
    ensures '/' !in r
  {
    if |path| == 0 then ""
    else if path[|path| - 1] == '/' then ""
    else BaseName(path[..|path| - 1]) + [path[|path| - 1]]
  }

  /** The last component ends the path. */
  lemma {:induction false} BaseNameEndsPath(path: string)
    ensures EndsWith(path, BaseName(path))
  {
    if |path| > 0 && path[|path| - 1] != '/' {
      var init := path[..|path| - 1];
      BaseNameEndsPath(init);
      var b := BaseName(init);
      assert path == init + [path[|path| - 1]];
      assert path[|path| - |b| - 1..] == init[|init| - |b|..] + [path[|path| - 1]];
    }
  }

  /** The position of the last `.` in `name`, if any. */
  function LastDot(name: string): (r: Option<nat>)
    ensures r.Some? ==> r.value < |name| && name[r.value] == '.'
    ensures r.Some? ==> forall j :: r.value < j < |name| ==> name[j] != '.'
    ensures r.None? ==> '.' !in name
  {
    if |name| == 0 then None
    else if name[|name| - 1] == '.' then Some(|name| - 1)
    else LastDot(name[..|name| - 1])
  }

  /** The path library's `suffix`: from the last dot of the name to its end,
      provided that dot is neither the first nor the last character. The
      suffix is empty or a dot and at least one more character, ending the
      name after a non-empty stem. */
  function Suffix(name: string): (r: string)
    ensures r == "" || (|r| >= 2 && r[0] == '.' && |r| < |name|)
  {
    match LastDot(name)
    case Some(i) => if 0 < i < |name| - 1 then name[i..] else ""
    case None => ""
  }

  /** The suffix ends the name, and no dot follows its own. */
  lemma SuffixShape(name: string)
    ensures EndsWith(name, Suffix(name))
    ensures var s := Suffix(name);
      s == "" || '.' !in s[1..]
  {
    var s := Suffix(name);
    if s != "" {
      var i := LastDot(name).value;
      assert s == name[i..];
      forall k | 1 <= k < |s| ensures s[k] != '.' {
        assert s[k] == name[i + k];
      }
    }
  }

  /** The extension the service compares with its list, lower-cased.
      Only ASCII letters are lower-cased: Python's Unicode lower-casing
      maps no other character onto an allowed extension, so acceptance is
      the same. */
  function Extension(filename: string): (r: string)
    ensures r == "" || (|r| >= 2 && r[0] == '.')
  {
    Lower(Suffix(BaseName(filename)))
  }

  /** The extension is the lower-cased end of the file name. */
  lemma ExtensionEndsName(filename: string)
    ensures EndsWith(Lower(filename), Extension(filename))
  {
    var b := BaseName(filename);
    var x := Suffix(b);
    BaseNameEndsPath(filename);
    SuffixShape(b);
    EndsWithTrans(filename, b, x);
    LowerEnds(filename, x);
  }

  /** An end of an end of `a` is an end of `a`. */
  lemma EndsWithTrans(a: string, b: string, c: string)
    requires EndsWith(a, b) && EndsWith(b, c)
    ensures EndsWith(a, c)
  {
    forall k | 0 <= k < |c| ensures a[|a| - |c| + k] == c[k] {
      assert c[k] == b[|b| - |c| + k];
      assert b[|b| - |c| + k] == a[|a| - |b| + |b| - |c| + k];
    }
  }

  /** Lower-casing keeps an end an end. */
  lemma LowerEnds(a: string, c: string)
    requires EndsWith(a, c)
    ensures EndsWith(Lower(a), Lower(c))
  {
    var la, lc := Lower(a), Lower(c);
    forall k | 0 <= k < |c| ensures la[|a| - |c| + k] == lc[k] {
      assert c[k] == a[|a| - |c| + k];
    }
  }

  /** `validate_image_metadata`: an accepted name ends, in some letter
      case, in one of the allowed extensions. */
  predicate ExtensionOk(filename: string)
    ensures ExtensionOk(filename) ==> exists e :: e in AllowedExtensions && EndsWith(Lower(filename), e)
  {
    ExtensionEndsName(filename);
    Extension(filename) in AllowedExtensions
  }

  /** `validate_mime_type`: the MIME type the request declares; only image
      types pass. */
  predicate MimeOk(contentType: string)
    ensures MimeOk(contentType) ==> |contentType| > 6 && contentType[..6] == "image/"
  {
    contentType in AllowedMime
  }

  /** Characters without a slash after a path extend its last component. */
  lemma {:induction false} BaseNameNoSlashTail(p: string, tail: string)
    requires '/' !in tail
    ensures BaseName(p + tail) == BaseName(p) + tail
  {
    if |tail| == 0 {
      assert p + tail == p;
    } else {
      var init, last := tail[..|tail| - 1], tail[|tail| - 1];
      NoSlashInit(tail);
      BaseNameNoSlashTail(p, init);
      BaseNameSnoc(p + init, last);
      AppendSnoc(p, init, last);
      AppendSnoc(BaseName(p), init, last);
    }
  }

  /** Dropping the last character keeps a slash-free string slash-free. */
  lemma NoSlashInit(tail: string)
    requires '/' !in tail && |tail| > 0
    ensures '/' !in tail[..|tail| - 1] && tail[|tail| - 1] != '/'
    ensures tail == tail[..|tail| - 1] + [tail[|tail| - 1]]
  {
    assert tail[|tail| - 1] in tail;
    assert forall c :: c in tail[..|tail| - 1] ==> c in tail;
  }

  /** One more non-slash character extends the last component. */
  lemma BaseNameSnoc(q: string, c: char)
    requires c != '/'
    ensures BaseName(q + [c]) == BaseName(q) + [c]
  {
    assert (q + [c])[..|q|] == q;
  }

  /** The last component of `dir/name` is `name`. */
  lemma BaseNameAfterSlash(dir: string, name: string)
    requires '/' !in name
    ensures BaseName(dir + "/" + name) == name
  {
    BaseNameNoSlashTail(dir + "/", name);
    assert BaseName(dir + "/") == "";
  }

  /** Characters without a dot after a name do not move its last dot. */
  lemma {:induction false} LastDotNoDotTail(p: string, tail: string)
    requires '.' !in tail
    ensures LastDot(p + tail) == LastDot(p)
  {
    if |tail| > 0 {
      var init := tail[..|tail| - 1];
      assert '.' !in init by {
        assert forall c :: c in init ==> c in tail;
      }
      LastDotNoDotTail(p, init);
      assert (p + tail)[..|p + tail| - 1] == p + init;
    } else {
      assert p + tail == p;
    }
  }

  /** The suffix of `stem.ext` (with no dot in `ext`) is `.ext`, unless the
      stem or the extension is empty. */
  lemma SuffixOf(stem: string, ext: string)
    requires '.' !in ext
    ensures Suffix(stem + "." + ext) == if |stem| > 0 && |ext| > 0 then "." + ext else ""
  {
    LastDotNoDotTail(stem + ".", ext);
    assert LastDot(stem + ".") == Some(|stem|);
    var name := stem + "." + ext;
    if |stem| > 0 && |ext| > 0 {
      assert name[|stem|..] == "." + ext;
    }
  }

  /** A name without a slash is its own last component. */
  lemma PlainName(name: string)
    requires '/' !in name
    ensures BaseName(name) == name
  {
    BaseNameNoSlashTail("", name);
    assert "" + name == name;
  }

  /** The extension of `dir/stem.ext` is `.ext` lowered, when the stem and
      the extension are non-empty and hold no slash or dot. */
  lemma ExtensionOfPath(dir: string, stem: string, ext: string)
    requires '/' !in stem && '/' !in ext && '.' !in ext && |stem| > 0 && |ext| > 0
    ensures Extension(dir + "/" + stem + "." + ext) == Lower("." + ext)
  {
    var name := stem + "." + ext;
    NoSlashJoined(stem, ext);
    AppendAssoc(dir + "/", stem, ".");
    AppendAssoc(dir + "/", stem + ".", ext);
    BaseNameAfterSlash(dir, name);
    SuffixOf(stem, ext);
  }

  /** Joining two slash-free parts with a dot gives a slash-free name. */
  lemma NoSlashJoined(stem: string, ext: string)
    requires '/' !in stem && '/' !in ext
    ensures '/' !in stem + "." + ext
  {
    var name := stem + "." + ext;
    forall k | 0 <= k < |name| ensures name[k] != '/' {
      if k < |stem| {
        assert name[k] == stem[k];
      } else if k > |stem| {
        assert name[k] == ext[k - |stem| - 1];
      }
    }
  }

  /** Upper-case extensions are accepted: only the lowered suffix counts. */
  lemma UpperCaseAccepted()
    ensures Extension("logos/Photo.JPG") == ".jpg" && ExtensionOk("logos/Photo.JPG")
  {
    var path := "logos/Photo.JPG";
    assert Extension(path) == Lower(".JPG") by {
      ExtensionOfPath("logos", "Photo", "JPG");
      PhotoPath(path);
    }
    LowerJpg(".JPG");
    JpgAllowed(".jpg");
  }

  /** `.jpg` is on the list. */
  lemma JpgAllowed(e: string)
    requires e == ".jpg"
    ensures e in AllowedExtensions
  {
  }

  /** The example path, taken apart. */
  lemma PhotoPath(path: string)
    requires path == "logos/Photo.JPG"
    ensures path == "logos" + "/" + "Photo" + "." + "JPG"
  {
  }

  /** `.JPG` lowers to `.jpg`. */
  lemma LowerJpg(s: string)
    requires s == ".JPG"
    ensures Lower(s) == ".jpg"
  {
    var l := Lower(s);
    assert l[0] == '.' && l[1] == 'j' && l[2] == 'p' && l[3] == 'g';
  }

  /** Only the final suffix counts, so an allowed inner suffix does not
      help. */
  lemma FinalSuffixOnly()
    ensures Extension("image.png.exe") == ".exe" && !ExtensionOk("image.png.exe")
  {
    var name := "image.png.exe";
    assert Extension(name) == Lower(".exe") by {
      ExeName(name);
      PlainName(name);
      SuffixOf("image.png", "exe");
    }
    ExeRefused(".exe");
  }

  /** The example name, taken apart. */
  lemma ExeName(name: string)
    requires name == "image.png.exe"
    ensures name == "image.png" + "." + "exe" && '/' !in name
  {
  }

  /** `.exe` lowers to itself and is not on the list. */
  lemma ExeRefused(e: string)
    requires e == ".exe"
    ensures Lower(e) == e && e !in AllowedExtensions
  {
    var l := Lower(e);
    assert l[0] == '.' && l[1] == 'e' && l[2] == 'x' && l[3] == 'e';
    assert e[1] == 'e';
  }

  /** A dot-file such as `.png` has no suffix at all, so it is refused. */
  lemma DotFileRefused(ext: string)
    requires '/' !in ext && '.' !in ext
    ensures Extension("." + ext) == "" && !ExtensionOk("." + ext)
  {
    var name := "." + ext;
    assert '/' !in name by {
      assert name == ['.'] + ext;
    }
    PlainName(name);
    assert name == "" + "." + ext;
    SuffixOf("", ext);
  }

  /** Nor has a name that ends in a dot, such as `photo.png.`. */
  lemma TrailingDotRefused(stem: string)
    requires '/' !in stem
    ensures Extension(stem + ".") == "" && !ExtensionOk(stem + ".")
  {
    var name := stem + ".";
    assert '/' !in name by {
      assert name == stem + ['.'];
    }
    PlainName(name);
    assert name == stem + "." + "";
    SuffixOf(stem, "");
  }

  // ------------------------------------------------------------ one file

  /** An uploaded part: its client-side name, declared type and size. */
  datatype UploadFile = UploadFile(filename: string, contentType: string, size: nat)

  /** The reply for a stored file. */
  datatype Stored = Stored(
    filename: string,
    originalName: string,
    url: string,
    size: nat,
    category: string,
    optimized: bool)

  const FileTooLarge: string := "File too large. Max size is 5MB"

  /** How an exception raised inside the upload reads as text:
      status, colon, detail. */
  function ExceptionText(status: nat, detail: string): string
  {
    NatToString(status) + ": " + detail
  }

  /** The extension a stored file gets: `.jpg` after optimizing (the
      optimizer always writes JPEG), otherwise the original one. */
  function StoredExtension(f: UploadFile, optimize: bool): (r: string)
    ensures ExtensionOk(f.filename) ==> r in AllowedExtensions
    ensures optimize ==> r == ".jpg"
    ensures !optimize ==> EndsWith(Lower(f.filename), r)
  {
    ExtensionEndsName(f.filename);
    if optimize then ".jpg" else Extension(f.filename)
  }

  /** Storing an accepted file: name it `id` plus its extension and place it
      under its category. `optimizer` is the optimizer's outcome: the new
      size, or the exception it raised. */
  function Store(f: UploadFile, category: string, optimize: bool, id: string, optimizer: Result<nat>): (r: Result<Stored>)
    ensures r.Ok? ==> r.value.filename == id + StoredExtension(f, optimize)
    ensures r.Ok? ==> r.value.url == "/uploads/" + category + "/" + r.value.filename
    ensures r.Ok? && optimize ==> optimizer.Ok? && r.value.size == optimizer.value
    ensures r.Ok? && !optimize ==> r.value.size == f.size
    ensures r.Ok? <==> (!optimize || optimizer.Ok?)
  {
    if optimize && optimizer.Err? then
      Err(BadRequest, "Error optimizing image: " + optimizer.detail)
    else
      var size := if optimize then optimizer.value else f.size;
      var name := id + StoredExtension(f, optimize);
      Ok(Stored(name, f.filename, "/uploads/" + category + "/" + name, size, category, optimize))
  }

  /** POST /image. `listing` is the allowed extensions joined as the running
      process orders its set. A file over the size cap is refused inside
      the guarded block, so its 400 reaches the client re-wrapped as 500. */
  function UploadImage(f: UploadFile, category: string, optimize: bool, id: string, optimizer: Result<nat>, listing: string): (r: Result<Stored>)
    ensures r.Ok? <==>
      (ExtensionOk(f.filename) && MimeOk(f.contentType) && f.size <= MaxFileSize && (!optimize || optimizer.Ok?))
    ensures r.Err? && r.status == BadRequest <==> !ExtensionOk(f.filename) || !MimeOk(f.contentType)
    ensures ExtensionOk(f.filename) && MimeOk(f.contentType) && f.size > MaxFileSize ==>
      r == Err(ServerError, "Error uploading file: " + ExceptionText(BadRequest, FileTooLarge))
    ensures r.Ok? ==> r == Store(f, category, optimize, id, optimizer)
  {
    if !ExtensionOk(f.filename) || !MimeOk(f.contentType) then
      Err(BadRequest, "Invalid file. Allowed: " + listing + ". Max size: 5MB")
    else if f.size > MaxFileSize then
      Err(ServerError, "Error uploading file: " + ExceptionText(BadRequest, FileTooLarge))
    else match Store(f, category, optimize, id, optimizer)
      case Ok(s) => Ok(s)
      case Err(code, detail) => Err(ServerError, "Error uploading file: " + ExceptionText(code, detail))
  }

  /** Every stored file carries an allowed extension and sits at the URL
      its category and generated name give. */
  lemma StoredNameAllowed(f: UploadFile, category: string, optimize: bool, id: string, optimizer: Result<nat>, listing: string)
    requires UploadImage(f, category, optimize, id, optimizer, listing).Ok?
    ensures var s := UploadImage(f, category, optimize, id, optimizer, listing).value;
      StoredExtension(f, optimize) in AllowedExtensions
      && s.filename == id + StoredExtension(f, optimize)
      && s.url == "/uploads/" + category + "/" + id + StoredExtension(f, optimize)
  {
  }

  // ------------------------------------------------------------ bulk

  datatype FileError = FileError(filename: string, error: string)

  const InvalidFormat: string := "Invalid file format or size"
  const TooManyFiles: string := "Maximum 10 files allowed per request"

  /** One file of a bulk upload: stored, or the error entry it produces. */
  function BulkItem(f: UploadFile, category: string, optimize: bool, id: string, optimizer: Result<nat>): (r: Result<Stored>)
    ensures r.Ok? <==>
      (ExtensionOk(f.filename) && MimeOk(f.contentType) && f.size <= MaxFileSize && (!optimize || optimizer.Ok?))
    ensures r.Ok? ==> r == Store(f, category, optimize, id, optimizer)
  {
    if !ExtensionOk(f.filename) || !MimeOk(f.contentType) then Err(BadRequest, InvalidFormat)
    else if f.size > MaxFileSize then Err(BadRequest, FileTooLarge)
    else match Store(f, category, optimize, id, optimizer)
      case Ok(s) => Ok(s)
      case Err(code, detail) => Err(code, ExceptionText(code, detail))
  }

  /** A stored file as the bulk reply lists it: the single reply's fields
      without its `optimized` flag. */
  datatype BulkEntry = BulkEntry(filename: string, originalName: string, url: string, size: nat, category: string)

  function AsBulkEntry(st: Stored): (e: BulkEntry)
    ensures e.filename == st.filename && e.originalName == st.originalName && e.url == st.url
    ensures e.size == st.size && e.category == st.category
  {
    BulkEntry(st.filename, st.originalName, st.url, st.size, st.category)
  }

  /** The reply of a bulk upload. */
  datatype Bulk = Bulk(success: nat, failed: nat, results: seq<BulkEntry>, errors: seq<FileError>)

  /** The stored entries, in file order. */
  function Successes(outcomes: seq<Result<Stored>>): (r: seq<BulkEntry>)
  {
    if |outcomes| == 0 then []
    else Successes(outcomes[..|outcomes| - 1])
         + (if outcomes[|outcomes| - 1].Ok? then [AsBulkEntry(outcomes[|outcomes| - 1].value)] else [])
  }

  /** The error entries, in file order. */
  function Failures(files: seq<UploadFile>, outcomes: seq<Result<Stored>>): (r: seq<FileError>)
    requires |files| == |outcomes|
  {
    if |outcomes| == 0 then []
    else Failures(files[..|files| - 1], outcomes[..|outcomes| - 1])
         + (if outcomes[|outcomes| - 1].Err?
            then [FileError(files[|files| - 1].filename, outcomes[|outcomes| - 1].detail)] else [])
  }

  /** Every outcome is either a success or a failure. */
  lemma {:induction false} SplitAccounts(files: seq<UploadFile>, outcomes: seq<Result<Stored>>)
    requires |files| == |outcomes|
    ensures |Successes(outcomes)| + |Failures(files, outcomes)| == |outcomes|
  {
    if |outcomes| > 0 {
      SplitAccounts(files[..|files| - 1], outcomes[..|outcomes| - 1]);
    }
  }

  /** The outcome of each file of a bulk upload, in file order. */
  function Outcomes(files: seq<UploadFile>, category: string, optimize: bool,
                    ids: seq<string>, optimizer: seq<Result<nat>>): (r: seq<Result<Stored>>)
    requires |ids| == |files| && |optimizer| == |files|
    ensures |r| == |files|
    ensures forall i :: 0 <= i < |files| ==> r[i] == BulkItem(files[i], category, optimize, ids[i], optimizer[i])
  {
    seq(|files|, i requires 0 <= i < |files| => BulkItem(files[i], category, optimize, ids[i], optimizer[i]))
  }

  /** POST /images/bulk. `ids` and `optimizer` give, per file, the generated
      name and the optimizer's outcome. More than ten files are refused;
      otherwise each file is processed on its own and lands in exactly one
      of the two lists. */
  method UploadMultiple(files: seq<UploadFile>, category: string, optimize: bool,
                        ids: seq<string>, optimizer: seq<Result<nat>>) returns (r: Result<Bulk>)
    requires |ids| == |files| && |optimizer| == |files|
    ensures r.Err? <==> |files| > MaxBulkFiles
    ensures r.Err? ==> r == Err(BadRequest, TooManyFiles)
    ensures r.Ok? ==> r.value.success + r.value.failed == |files|
    ensures r.Ok? ==> r.value.success == |r.value.results| && r.value.failed == |r.value.errors|
    ensures r.Ok? ==> var outcomes := Outcomes(files, category, optimize, ids, optimizer);
      r.value.results == Successes(outcomes) && r.value.errors == Failures(files, outcomes)
  {
    if |files| > MaxBulkFiles {
      return Err(BadRequest, TooManyFiles);
    }
    var outcomes := Outcomes(files, category, optimize, ids, optimizer);
    var results, errors := Account(files, outcomes);
    SplitAccounts(files, outcomes);
    return Ok(Bulk(|results|, |errors|, results, errors));
  }

  /** The bulk handler's loop: each outcome in turn goes to the results or,
      with its file name, to the errors. */
  method Account(files: seq<UploadFile>, outcomes: seq<Result<Stored>>) returns (results: seq<BulkEntry>, errors: seq<FileError>)
    requires |files| == |outcomes|
    ensures results == Successes(outcomes) && errors == Failures(files, outcomes)
  {
    results, errors := [], [];
    var k := 0;
    while k < |outcomes|
      invariant 0 <= k <= |outcomes|
      invariant results == Successes(outcomes[..k])
      invariant errors == Failures(files[..k], outcomes[..k])
    {
      SuccessesSnoc(outcomes, k);
      FailuresSnoc(files, outcomes, k);
      if outcomes[k].Ok? {
        results := results + [AsBulkEntry(outcomes[k].value)];
      } else {
        errors := errors + [FileError(files[k].filename, outcomes[k].detail)];
      }
      k := k + 1;
    }
    assert outcomes[..k] == outcomes;
    assert files[..k] == files;
  }

  lemma SuccessesSnoc(outcomes: seq<Result<Stored>>, k: nat)
    requires k < |outcomes|
    ensures Successes(outcomes[..k + 1])
         == Successes(outcomes[..k]) + (if outcomes[k].Ok? then [AsBulkEntry(outcomes[k].value)] else [])
  {
    assert outcomes[..k + 1][..k] == outcomes[..k];
  }

  lemma FailuresSnoc(files: seq<UploadFile>, outcomes: seq<Result<Stored>>, k: nat)
    requires |files| == |outcomes| && k < |outcomes|
    ensures Failures(files[..k + 1], outcomes[..k + 1])
         == Failures(files[..k], outcomes[..k])
            + (if outcomes[k].Err? then [FileError(files[k].filename, outcomes[k].detail)] else [])
  {
    assert outcomes[..k + 1][..k] == outcomes[..k];
    assert files[..k + 1][..k] == files[..k];
  }

  /** A file stored by a bulk upload is stored exactly as a single upload of
      it would be. */
  lemma BulkAgreesWithSingle(f: UploadFile, category: string, optimize: bool, id: string, optimizer: Result<nat>, listing: string)
    ensures BulkItem(f, category, optimize, id, optimizer).Ok?
        <==> UploadImage(f, category, optimize, id, optimizer, listing).Ok?
    ensures BulkItem(f, category, optimize, id, optimizer).Ok? ==>
      BulkItem(f, category, optimize, id, optimizer) == UploadImage(f, category, optimize, id, optimizer, listing)
  {
  }

  // ------------------------------------------------------------ storage

  /** A directory entry: regular file or not, and its size. */
  datatype Entry = Entry(isFile: bool, size: nat)

  datatype CategoryStats = CategoryStats(files: nat, size: nat)

  datatype Stats = Stats(categories: map<string, CategoryStats>, totalFiles: nat, totalSize: nat)

  function FileCount(entries: seq<Entry>): nat
  {
    if |entries| == 0 then 0 else (if entries[0].isFile then 1 else 0) + FileCount(entries[1..])
  }

  function FileBytes(entries: seq<Entry>): nat
  {
    if |entries| == 0 then 0 else (if entries[0].isFile then entries[0].size else 0) + FileBytes(entries[1..])
  }

  /** The statistics of the categories in `cats`, over the directories that
      exist (`dirs` maps a category to its entries). */
  function StatsOver(dirs: map<string, seq<Entry>>, cats: seq<string>): (r: Stats)
    ensures r.categories.Keys == set c | c in cats && c in dirs
    ensures forall c :: c in r.categories ==>
      r.categories[c] == CategoryStats(FileCount(dirs[c]), FileBytes(dirs[c]))
  {
    if |cats| == 0 then Stats(map[], 0, 0)
    else
      var rest := StatsOver(dirs, cats[..|cats| - 1]);
      var c := cats[|cats| - 1];
      if c in dirs then
        var cs := CategoryStats(FileCount(dirs[c]), FileBytes(dirs[c]));
        Stats(rest.categories[c := cs], rest.totalFiles + cs.files, rest.totalSize + cs.size)
      else rest
  }

  /** GET /storage/stats. */
  function StorageStats(dirs: map<string, seq<Entry>>): (r: Stats)
    ensures r.categories.Keys == set c | c in Categories && c in dirs
  {
    StatsOver(dirs, Categories)
  }

  /** Files of a category, zero when its directory is missing. */
  function CountOf(dirs: map<string, seq<Entry>>, c: string): nat
  {
    if c in dirs then FileCount(dirs[c]) else 0
  }

  function BytesOf(dirs: map<string, seq<Entry>>, c: string): nat
  {
    if c in dirs then FileBytes(dirs[c]) else 0
  }

  /** Adding one category to the list adds its counts to the totals. */
  lemma StatsStep(dirs: map<string, seq<Entry>>, cats: seq<string>)
    requires |cats| > 0
    ensures StatsOver(dirs, cats).totalFiles
         == StatsOver(dirs, cats[..|cats| - 1]).totalFiles + CountOf(dirs, cats[|cats| - 1])
    ensures StatsOver(dirs, cats).totalSize
         == StatsOver(dirs, cats[..|cats| - 1]).totalSize + BytesOf(dirs, cats[|cats| - 1])
  {
  }

  /** The totals are the sums over the three categories; other directories
      are never counted. */
  lemma TotalsAreSums(dirs: map<string, seq<Entry>>)
    ensures StorageStats(dirs).totalFiles
         == CountOf(dirs, "promotions") + CountOf(dirs, "brands") + CountOf(dirs, "general")
    ensures StorageStats(dirs).totalSize
         == BytesOf(dirs, "promotions") + BytesOf(dirs, "brands") + BytesOf(dirs, "general")
  {
    var c2: seq<string> := ["promotions", "brands"];
    var c1: seq<string> := ["promotions"];
    var c0: seq<string> := [];
    assert Categories[..2] == c2 && c2[..1] == c1 && c1[..0] == c0;
    StatsStep(dirs, Categories);
    StatsStep(dirs, c2);
    StatsStep(dirs, c1);
  }
}
