/** The upload middleware in front of post creation and post update: the extension of a file name,
    the image filter, the limits of the upload, and what each middleware decides — reject with 400
    (deleting the stored files when a new post lacks its caption or privacy) or pass on the stored
    file names as `imagePaths`. The upload directory is a set of paths. */
module UploadMiddleware {
  import opened Wrappers
  import Text

  /** The name with any trailing `/` removed. */
  function StripTrailingSlashes(s: string): (r: string)
    ensures |r| <= |s| && r == s[..|r|]
    ensures r == [] || r[|r| - 1] != '/'
    ensures forall i :: |r| <= i < |s| ==> s[i] == '/'
  {
    if s != [] && s[|s| - 1] == '/' then StripTrailingSlashes(s[..|s| - 1]) else s
  }

  function LastIndexOf(s: string, c: char): (r: Option<nat>)
    ensures r.Some? ==> r.value < |s| && s[r.value] == c
    ensures r.Some? ==> forall j :: r.value < j < |s| ==> s[j] != c
    ensures r.None? ==> forall j :: 0 <= j < |s| ==> s[j] != c
  {
    if s == [] then None
    else if s[|s| - 1] == c then Some(|s| - 1)
    else LastIndexOf(s[..|s| - 1], c)
  }

  /** What follows the last `/`. */
  function Basename(s: string): (r: string)
    ensures |r| <= |s| && r == s[|s| - |r|..]
    ensures forall i :: 0 <= i < |r| ==> r[i] != '/'
  {
    match LastIndexOf(s, '/')
    case None => s
    case Some(k) => s[k + 1..]
  }

  /** The extension of a path segment: from its last `.` to its end; empty when it has no `.`,
      when its only `.` is its first character, and for `..`. */
  function SegmentExt(base: string): string {
    match LastIndexOf(base, '.')
    case None => ""
    case Some(d) => if d == 0 || base == ".." then "" else base[d..]
  }

  /** `path.extname` (POSIX): the extension of the last path segment. */
  function ExtName(name: string): string {
    SegmentExt(Basename(StripTrailingSlashes(name)))
  }

  /** A segment's extension is empty or a suffix of the segment starting at its only dot. */
  lemma SegmentExtShape(base: string)
    ensures var r := SegmentExt(base); r == [] || r[0] == '.'
    ensures var r := SegmentExt(base); forall i :: 1 <= i < |r| ==> r[i] != '.'
    ensures var r := SegmentExt(base); |r| <= |base| && r == base[|base| - |r|..]
  {
  }

  /** A suffix of a suffix is a suffix. */
  lemma SuffixOfSuffix(s: string, base: string, r: string)
    requires |base| <= |s| && base == s[|s| - |base|..]
    requires |r| <= |base| && r == base[|base| - |r|..]
    ensures |r| <= |s| && r == s[|s| - |r|..]
    ensures forall i :: 0 <= i < |r| ==> r[i] == base[|base| - |r| + i]
  {
  }

  /** An extension is empty or starts with its only dot, has no `/`, and ends the name (before any
      trailing slashes). */
  lemma ExtNameShape(name: string)
    ensures var r := ExtName(name); r == [] || r[0] == '.'
    ensures var r := ExtName(name); forall i :: 1 <= i < |r| ==> r[i] != '.' && r[i] != '/'
    ensures var r, s := ExtName(name), StripTrailingSlashes(name); |r| <= |s| && r == s[|s| - |r|..]
  {
    var s := StripTrailingSlashes(name);
    var base := Basename(s);
    SegmentExtShape(base);
    SuffixOfSuffix(s, base, SegmentExt(base));
  }

  /** Without a `c` in `s` there is no last one. */
  lemma LastIndexOfNone(s: string, c: char)
    requires forall j :: 0 <= j < |s| ==> s[j] != c
    ensures LastIndexOf(s, c) == None
  {
  }

  /** The last `c` in `s` is the one at `k` when none follows it. */
  lemma LastIndexOfAt(s: string, c: char, k: nat)
    requires k < |s| && s[k] == c
    requires forall j :: k < j < |s| ==> s[j] != c
    ensures LastIndexOf(s, c) == Some(k)
  {
  }

  /** A leading dot is not an extension. */
  lemma ExtNameOfDotFile()
    ensures ExtName(".png") == ""
  {
    var s := ".png";
    assert s[0] == '.' && s[1] == 'p' && s[2] == 'n' && s[3] == 'g';
    assert StripTrailingSlashes(s) == s;
    LastIndexOfNone(s, '/');
    LastIndexOfAt(s, '.', 0);
  }

  /** `/jpeg|jpg|png|gif/.test(s)`: unanchored, so any occurrence counts. */
  predicate MentionsImageType(s: string) {
    Text.Contains(s, "jpeg") || Text.Contains(s, "jpg") || Text.Contains(s, "png") || Text.Contains(s, "gif")
  }

  /** `fileFilter`: the lower-cased extension and the (not lower-cased) mimetype both mention an
      image type. */
  predicate FileFilter(originalname: string, mimetype: string) {
    MentionsImageType(Text.AsciiLower(ExtName(originalname))) && MentionsImageType(mimetype)
  }

  /** A word of three or more characters that does not start with `.` occurs in a text starting
      with `.` only after that dot. */
  lemma OccurrenceAfterDot(e: string, t: string)
    requires Text.Contains(e, t) && |t| >= 3 && t[0] != '.'
    requires e == [] || e[0] == '.'
    ensures |e| >= 4
  {
    Text.ContainsMeans(e, t);
    var i :| Text.OccursAt(e, t, i);
    assert e[i] == e[i..i + |t|][0];
  }

  /** A type name needs three characters, so an accepted file has an extension with at least three
      characters after its dot. */
  lemma AcceptedHasExtension(originalname: string, mimetype: string)
    requires FileFilter(originalname, mimetype)
    ensures |ExtName(originalname)| >= 4
  {
    var x := ExtName(originalname);
    ExtNameShape(originalname);
    var e := Text.AsciiLower(x);
    assert e == [] || e[0] == '.' by {
      if e != [] {
        assert e[0] == Text.LowerChar(x[0]);
      }
    }
    if Text.Contains(e, "jpeg") {
      OccurrenceAfterDot(e, "jpeg");
    } else if Text.Contains(e, "jpg") {
      OccurrenceAfterDot(e, "jpg");
    } else if Text.Contains(e, "png") {
      OccurrenceAfterDot(e, "png");
    } else {
      OccurrenceAfterDot(e, "gif");
    }
  }

  /** A word starting with a lower-case letter does not occur in a text without one. */
  lemma NotContainedWithoutLower(s: string, t: string)
    requires t != [] && Text.IsLower(t[0])
    requires forall j :: 0 <= j < |s| ==> !Text.IsLower(s[j])
    ensures !Text.Contains(s, t)
  {
    Text.ContainsMeans(s, t);
  }

  /** The mimetype is not lower-cased: a mimetype without lower-case letters, such as
      `IMAGE/PNG`, is refused whatever the file's name. */
  lemma UpperCaseMimetypeRefused(originalname: string, mimetype: string)
    requires forall j :: 0 <= j < |mimetype| ==> !Text.IsLower(mimetype[j])
    ensures !FileFilter(originalname, mimetype)
  {
    NotContainedWithoutLower(mimetype, "jpeg");
    NotContainedWithoutLower(mimetype, "jpg");
    NotContainedWithoutLower(mimetype, "png");
    NotContainedWithoutLower(mimetype, "gif");
  }

  const MaxFiles := 10
  const MaxFileSize := 5 * 1024 * 1024

  /** A file of the multipart request; `filename` is the name the disk storage gives it. */
  datatype IncomingFile = IncomingFile(field: string, originalname: string, mimetype: string, size: nat,
                                       filename: string)

  datatype UploadError = UnexpectedField | NotAnImage | FileTooLarge

  /** The error the upload raises at the file in `position`: a field other than `post_image` or an
      eleventh file, then the image filter, then the 5 MiB size limit. */
  function FileError(f: IncomingFile, position: nat): (r: Option<UploadError>)
    ensures r.None? <==>
      f.field == "post_image" && position < MaxFiles && FileFilter(f.originalname, f.mimetype)
      && f.size <= MaxFileSize
  {
    if f.field != "post_image" || position >= MaxFiles then Some(UnexpectedField)
    else if !FileFilter(f.originalname, f.mimetype) then Some(NotAnImage)
    else if f.size > MaxFileSize then Some(FileTooLarge)
    else None
  }

  /** The error of each file, position by position. */
  function FileErrors(files: seq<IncomingFile>): (r: seq<Option<UploadError>>)
    ensures |r| == |files| && forall i :: 0 <= i < |files| ==> r[i] == FileError(files[i], i)
  {
    seq(|files|, i requires 0 <= i < |files| => FileError(files[i], i))
  }

  /** The first error of the list: none exactly when there is none, and otherwise an error that
      only successes precede. */
  function FirstError(errs: seq<Option<UploadError>>): (r: Option<UploadError>)
    ensures r.None? <==> forall i :: 0 <= i < |errs| ==> errs[i].None?
    ensures r.Some? ==> exists i :: 0 <= i < |errs| && errs[i] == r && forall j :: 0 <= j < i ==> errs[j].None?
  {
    if errs == [] then None
    else if errs[0].Some? then errs[0]
    else
      var r := FirstError(errs[1..]);
      assert forall i :: 1 <= i < |errs| ==> errs[i] == errs[1..][i - 1];
      r
  }

  /** The outcome of multer's upload: the first error among the files, if any. */
  function UploadFailure(files: seq<IncomingFile>): Option<UploadError> {
    FirstError(FileErrors(files))
  }

  /** The upload fails unless every file is a `post_image` image within the limits and there are
      at most ten of them. */
  lemma UploadFailureMeans(files: seq<IncomingFile>)
    ensures UploadFailure(files).None? <==>
      |files| <= MaxFiles
      && forall i :: 0 <= i < |files| ==>
           files[i].field == "post_image" && FileFilter(files[i].originalname, files[i].mimetype)
           && files[i].size <= MaxFileSize
  {
    var errs := FileErrors(files);
    assert |files| > MaxFiles ==> errs[MaxFiles].Some?;
  }

  /** Only the errors up to the first one matter. */
  lemma {:induction false} FirstErrorPrefix(errs: seq<Option<UploadError>>, k: nat)
    requires 0 < k <= |errs| && errs[k - 1].Some?
    ensures FirstError(errs) == FirstError(errs[..k])
  {
    if errs[0].None? {
      assert errs[..k][1..] == errs[1..][..k - 1];
      FirstErrorPrefix(errs[1..], k - 1);
    }
  }

  /** An upload of more than ten files fails: the eleventh file is an unexpected field. */
  lemma TooManyFilesFail(files: seq<IncomingFile>)
    ensures |files| > MaxFiles ==> UploadFailure(files) == FirstError(FileErrors(files)[..MaxFiles + 1])
    ensures |files| > MaxFiles ==> UploadFailure(files).Some?
  {
    if |files| > MaxFiles {
      var errs := FileErrors(files);
      assert errs[MaxFiles] == Some(UnexpectedField);
      FirstErrorPrefix(errs, MaxFiles + 1);
    }
  }

  /** A failed upload reports the error of the first file that breaks a rule. */
  lemma UploadFailureIsFirst(files: seq<IncomingFile>)
    ensures UploadFailure(files).Some? ==>
      exists i :: 0 <= i < |files| && FileError(files[i], i) == UploadFailure(files)
                  && forall j :: 0 <= j < i ==> FileError(files[j], j).None?
  {
    var errs := FileErrors(files);
    if FirstError(errs).Some? {
      var i :| 0 <= i < |errs| && errs[i] == FirstError(errs) && forall j :: 0 <= j < i ==> errs[j].None?;
      assert FileError(files[i], i) == UploadFailure(files);
    }
  }

  function Filenames(files: seq<IncomingFile>): (r: seq<string>)
    ensures |r| == |files| && forall i :: 0 <= i < |files| ==> r[i] == files[i].filename
  {
    seq(|files|, i requires 0 <= i < |files| => files[i].filename)
  }

  function PathOf(f: IncomingFile): string { "uploads/" + f.filename }

  /** Where the storage puts the files. */
  function StoredPaths(files: seq<IncomingFile>): (r: set<string>)
    ensures forall i :: 0 <= i < |files| ==> PathOf(files[i]) in r
    ensures forall p :: p in r ==> exists i :: 0 <= i < |files| && PathOf(files[i]) == p
  {
    set i | 0 <= i < |files| :: PathOf(files[i])
  }

  /** A body field is truthy when present and not empty. */
  predicate Truthy(v: Option<string>) { v.Some? && v.value != [] }

  datatype Reason = UploadFailed(error: UploadError) | CaptionAndPrivacyRequired | ImageRequired

  /** What a middleware decides: answer 400, or pass `imagePaths` on to the controller. */
  datatype Decision = Reject(status: int, reason: Reason) | Proceed(imagePaths: seq<string>)

  /** The upload directory. */
  class UploadDir {
    var stored: set<string>

    constructor (stored: set<string>)
      ensures this.stored == stored
    {
      this.stored := stored;
    }

    /** `fs.unlinkSync` on each file in turn; a failure to delete is logged and ignored. */
    method DeleteAll(files: seq<IncomingFile>)
      modifies this`stored
      ensures stored == old(stored) - StoredPaths(files)
    {
      var i := 0;
      while i < |files|
        invariant 0 <= i <= |files|
        invariant stored == old(stored) - StoredPaths(files[..i])
      {
        assert StoredPaths(files[..i + 1]) == StoredPaths(files[..i]) + {PathOf(files[i])} by {
          assert forall j :: 0 <= j < i ==> files[..i + 1][j] == files[..i][j];
        }
        stored := stored - {PathOf(files[i])};
        i := i + 1;
      }
      assert files[..i] == files;
    }
  }

  /** What `postImageUpload` decides. `files` is `None` when the request carries no files part.
      An upload error is answered first, then a missing caption or privacy, then the lack of any
      file; otherwise the stored names go on, in order. */
  function PostDecision(caption: Option<string>, privacy: Option<string>, files: Option<seq<IncomingFile>>)
    : (d: Decision)
    ensures d.Reject? ==> d.status == 400
    ensures files.Some? && UploadFailure(files.value).Some? ==>
      d == Reject(400, UploadFailed(UploadFailure(files.value).value))
    ensures d.Proceed? <==>
      files.Some? && files.value != [] && UploadFailure(files.value).None? && Truthy(caption) && Truthy(privacy)
    ensures d.Proceed? ==> d.imagePaths == Filenames(files.value) && 1 <= |d.imagePaths| <= MaxFiles
    ensures d == Reject(400, CaptionAndPrivacyRequired) <==>
      (files.None? || UploadFailure(files.value).None?) && !(Truthy(caption) && Truthy(privacy))
  {
    if files.Some? && UploadFailure(files.value).Some? then Reject(400, UploadFailed(UploadFailure(files.value).value))
    else if !(Truthy(caption) && Truthy(privacy)) then Reject(400, CaptionAndPrivacyRequired)
    else if files.None? || files.value == [] then Reject(400, ImageRequired)
    else TooManyFilesFail(files.value); Proceed(Filenames(files.value))
  }

  /** The upload directory after `postImageUpload`: a failed upload stores nothing, a refused
      request deletes what it stored, and an accepted one keeps its files. */
  function StoredAfterPost(stored: set<string>, caption: Option<string>, privacy: Option<string>,
                           files: Option<seq<IncomingFile>>): set<string> {
    if files.None? || UploadFailure(files.value).Some? then stored
    else if !(Truthy(caption) && Truthy(privacy)) then stored - StoredPaths(files.value)
    else stored + StoredPaths(files.value)
  }

  /** A rejected request leaves no file of its own behind. */
  lemma PostRejectLeavesNothing(stored: set<string>, caption: Option<string>, privacy: Option<string>,
                                files: Option<seq<IncomingFile>>)
    requires PostDecision(caption, privacy, files).Reject?
    ensures StoredAfterPost(stored, caption, privacy, files) <= stored
  {
    if files.Some? && files.value == [] {
      assert StoredPaths(files.value) == {};
    }
  }

  /** An accepted request leaves every file whose name it passes on in the upload directory. */
  lemma PostKeepsPassedFiles(stored: set<string>, caption: Option<string>, privacy: Option<string>,
                             files: Option<seq<IncomingFile>>)
    requires PostDecision(caption, privacy, files).Proceed?
    ensures forall n :: n in PostDecision(caption, privacy, files).imagePaths ==>
      "uploads/" + n in StoredAfterPost(stored, caption, privacy, files)
  {
    var fs := files.value;
    assert PostDecision(caption, privacy, files).imagePaths == Filenames(fs);
    assert StoredAfterPost(stored, caption, privacy, files) == stored + StoredPaths(fs);
    NamesStored(fs);
  }

  /** The stored name of each file is under `uploads/`. */
  lemma NamesStored(fs: seq<IncomingFile>)
    ensures forall n :: n in Filenames(fs) ==> "uploads/" + n in StoredPaths(fs)
  {
    forall n | n in Filenames(fs) ensures "uploads/" + n in StoredPaths(fs) {
      var i :| 0 <= i < |fs| && Filenames(fs)[i] == n;
      assert PathOf(fs[i]) == "uploads/" + n;
    }
  }

  /** `postImageUpload`: the upload stores the files unless it fails; a missing caption or privacy
      then deletes them again; the decision is `PostDecision`. */
  method PostImageUpload(dir: UploadDir, caption: Option<string>, privacy: Option<string>,
                         files: Option<seq<IncomingFile>>) returns (d: Decision)
    modifies dir
    ensures d == PostDecision(caption, privacy, files)
    ensures dir.stored == StoredAfterPost(old(dir.stored), caption, privacy, files)
  {
    if files.Some? && UploadFailure(files.value).None? {
      dir.stored := dir.stored + StoredPaths(files.value);
      if !(Truthy(caption) && Truthy(privacy)) {
        dir.DeleteAll(files.value);
      }
    }
    d := PostDecision(caption, privacy, files);
  }

  /** What `updateImageUpload` decides: an upload error answers 400; otherwise the stored names go
      on, or no names when the request has no files part. Caption and privacy are not checked. */
  function UpdateDecision(files: Option<seq<IncomingFile>>): (d: Decision)
    ensures d.Reject? <==> files.Some? && UploadFailure(files.value).Some?
    ensures d.Reject? ==> d == Reject(400, UploadFailed(UploadFailure(files.value).value))
    ensures files.None? ==> d == Proceed([])
    ensures files.Some? && d.Proceed? ==> d.imagePaths == Filenames(files.value) && |d.imagePaths| <= MaxFiles
  {
    if files.None? then Proceed([])
    else if UploadFailure(files.value).Some? then Reject(400, UploadFailed(UploadFailure(files.value).value))
    else TooManyFilesFail(files.value); Proceed(Filenames(files.value))
  }

  /** `updateImageUpload`: the upload stores the files unless it fails; the decision is
      `UpdateDecision`. */
  method UpdateImageUpload(dir: UploadDir, files: Option<seq<IncomingFile>>) returns (d: Decision)
    modifies dir
    ensures d == UpdateDecision(files)
    ensures files.Some? && UploadFailure(files.value).None? ==>
      dir.stored == old(dir.stored) + StoredPaths(files.value)
    ensures files.None? || UploadFailure(files.value).Some? ==> dir.stored == old(dir.stored)
  {
    if files.Some? && UploadFailure(files.value).None? {
      dir.stored := dir.stored + StoredPaths(files.value);
    }
    d := UpdateDecision(files);
  }
}
