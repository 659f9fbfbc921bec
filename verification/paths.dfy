/** Path and URL strings of uploaded images: the .NET `Path` functions the
    controllers call, the extension check applied to every upload, where an
    upload is written, the URL stored for it, and how a stored URL is turned
    back into the file path that `DeleteImageFile` removes. */
module Paths {
  import opened Text

  /** The operating system decides `Path.DirectorySeparatorChar`; '/' is a
      separator on both. */
  datatype Platform = Unix | Windows

  function DirSep(os: Platform): char
  {
    if os.Unix? then '/' else '\\'
  }

  predicate IsSep(c: char, os: Platform)
  {
    c == '/' || c == DirSep(os)
  }

  /* ---------- Path.GetExtension ---------- */

  /** `Path.GetExtension`: the suffix from the last '.', provided no separator
      follows that '.' and it is not the last character; otherwise empty. */
  function GetExtension(path: string, os: Platform): (ext: string)
    ensures ext == [] || (2 <= |ext| <= |path| && ext == path[|path| - |ext|..] && ext[0] == '.')
  {
    ExtensionScan(path, |path|, os)
  }

  /** Scans `path[..i]` from the right, as `GetExtension` does. */
  function ExtensionScan(path: string, i: nat, os: Platform): (ext: string)
    requires i <= |path|
    ensures ext == [] || (2 <= |ext| <= |path| && ext == path[|path| - |ext|..] && ext[0] == '.')
    decreases i
  {
    if i == 0 then []
    else if path[i - 1] == '.' then (if i == |path| then [] else path[i - 1..])
    else if IsSep(path[i - 1], os) then []
    else ExtensionScan(path, i - 1, os)
  }

  lemma {:induction false} ScanSkipsPlain(path: string, j: nat, i: nat, os: Platform)
    requires j <= i <= |path|
    requires forall k :: j <= k < i ==> path[k] != '.' && !IsSep(path[k], os)
    ensures ExtensionScan(path, i, os) == ExtensionScan(path, j, os)
    decreases i - j
  {
    if j < i {
      ScanSkipsPlain(path, j, i - 1, os);
    }
  }

  /** The extensions an image upload may have, lower case. */
  const PermittedExtensions: seq<string> := [".jpg", ".jpeg", ".png"]

  /** `IsImageFile`: the lower-cased extension is non-empty and permitted. */
  predicate IsImageFile(fileName: string, os: Platform)
  {
    var ext := ToLower(GetExtension(fileName, os));
    ext != [] && ext in PermittedExtensions
  }

  /** `s` ends with `e`, ignoring the case of ASCII letters in `s`. */
  predicate EndsWithIgnoreCase(s: string, e: string)
  {
    |e| <= |s| && ToLower(s[|s| - |e|..]) == e
  }

  /** A file is accepted exactly when its name ends, in any letter case, in
      ".jpg", ".jpeg" or ".png". */
  lemma IsImageFileIff(fileName: string, os: Platform)
    ensures IsImageFile(fileName, os) <==>
      EndsWithIgnoreCase(fileName, ".jpg") || EndsWithIgnoreCase(fileName, ".jpeg")
      || EndsWithIgnoreCase(fileName, ".png")
  {
    if IsImageFile(fileName, os) {
      AcceptedEndsPermitted(fileName, os);
    }
    PermittedEndingsAccepted(fileName, os);
  }

  lemma AcceptedEndsPermitted(fileName: string, os: Platform)
    requires IsImageFile(fileName, os)
    ensures EndsWithIgnoreCase(fileName, ".jpg") || EndsWithIgnoreCase(fileName, ".jpeg")
      || EndsWithIgnoreCase(fileName, ".png")
  {
    AcceptedHasEnding(fileName, os);
    var ext := ToLower(GetExtension(fileName, os));
    assert ext == PermittedExtensions[0] || ext == PermittedExtensions[1] || ext == PermittedExtensions[2];
  }

  lemma PermittedEndingsAccepted(fileName: string, os: Platform)
    ensures (EndsWithIgnoreCase(fileName, ".jpg") || EndsWithIgnoreCase(fileName, ".jpeg")
             || EndsWithIgnoreCase(fileName, ".png")) ==> IsImageFile(fileName, os)
  {
    if EndsWithIgnoreCase(fileName, ".jpg") {
      EndingAccepted(fileName, ".jpg", os);
    } else if EndsWithIgnoreCase(fileName, ".jpeg") {
      EndingAccepted(fileName, ".jpeg", os);
    } else if EndsWithIgnoreCase(fileName, ".png") {
      EndingAccepted(fileName, ".png", os);
    }
  }

  /** A name cannot end in `e`, in any case, when its last character,
      lower-cased, differs from the last character of `e`. */
  lemma LastCharMismatch(s: string, e: string)
    requires s != [] && e != [] && ToLowerChar(s[|s| - 1]) != e[|e| - 1]
    ensures !EndsWithIgnoreCase(s, e)
  {
    if |e| <= |s| {
      var tail := s[|s| - |e|..];
      assert tail[|e| - 1] == s[|s| - 1];
      assert ToLower(tail)[|e| - 1] != e[|e| - 1];
    }
  }

  lemma AcceptedHasEnding(fileName: string, os: Platform)
    requires IsImageFile(fileName, os)
    ensures EndsWithIgnoreCase(fileName, ToLower(GetExtension(fileName, os)))
    ensures ToLower(GetExtension(fileName, os)) in PermittedExtensions
  {
  }

  lemma EndingAccepted(fileName: string, e: string, os: Platform)
    requires e in PermittedExtensions
    requires EndsWithIgnoreCase(fileName, e)
    ensures IsImageFile(fileName, os)
  {
    assert 2 <= |e| && e[0] == '.' && forall k :: 1 <= k < |e| ==> 'a' <= e[k] <= 'z';
    EndingIsExtension(fileName, e, os);
  }

  /** A name ending in '.' and ASCII letters has that ending as its extension. */
  lemma EndingIsExtension(fileName: string, e: string, os: Platform)
    requires 2 <= |e| && e[0] == '.' && forall k :: 1 <= k < |e| ==> 'a' <= e[k] <= 'z'
    requires EndsWithIgnoreCase(fileName, e)
    ensures GetExtension(fileName, os) == fileName[|fileName| - |e|..]
  {
    var n := |fileName|;
    var start := n - |e|;
    var suffix := fileName[start..];
    forall k | start + 1 <= k < n ensures fileName[k] != '.' && !IsSep(fileName[k], os) {
      assert suffix[k - start] == fileName[k];
      assert ToLowerChar(fileName[k]) == e[k - start];
    }
    assert suffix[0] == fileName[start];
    assert ToLowerChar(fileName[start]) == e[0];
    ScanSkipsPlain(fileName, start + 1, n, os);
  }

  /** A name without a '.', or whose last character is '.', has no extension
      and is rejected. */
  lemma ExtensionlessRejected(fileName: string, os: Platform)
    requires '.' !in fileName || (fileName != [] && fileName[|fileName| - 1] == '.')
    ensures GetExtension(fileName, os) == []
    ensures !IsImageFile(fileName, os)
  {
  }

  lemma UpperCaseAccepted(os: Platform)
    ensures IsImageFile("Photo.JPG", os)
  {
    var s := "Photo.JPG";
    assert s[5..] == ".JPG";
    assert ToLower(".JPG") == ".jpg";
    EndingAccepted(s, ".jpg", os);
  }

  /* ---------- Path.GetFileName and Path.Combine ---------- */

  /** `Path.GetFileName`: the part after the last separator. */
  function GetFileName(path: string, os: Platform): (name: string)
    ensures |name| <= |path| && name == path[|path| - |name|..]
    ensures forall k :: 0 <= k < |name| ==> !IsSep(name[k], os)
    ensures |name| < |path| ==> IsSep(path[|path| - |name| - 1], os)
  {
    if path == [] then []
    else if IsSep(path[|path| - 1], os) then []
    else GetFileName(path[..|path| - 1], os) + [path[|path| - 1]]
  }

  predicate IsPathRooted(p: string, os: Platform)
  {
    p != [] && IsSep(p[0], os)
  }

  /** `Path.Combine(a, b)`: `b` when `a` is empty or `b` is rooted, otherwise
      the two joined by one separator unless one is already there. The
      three-argument overload behaves as two nested calls. */
  function Combine(a: string, b: string, os: Platform): string
  {
    if b == [] then a
    else if a == [] || IsPathRooted(b, os) then b
    else if IsSep(a[|a| - 1], os) || IsSep(b[0], os) then a + b
    else a + [DirSep(os)] + b
  }

  /** What `Combine(a, _)` puts before a relative, non-empty second part. */
  function JoinPrefix(a: string, os: Platform): string
  {
    if a == [] || IsSep(a[|a| - 1], os) then a else a + [DirSep(os)]
  }

  lemma CombineRelative(a: string, b: string, os: Platform)
    requires b != [] && !IsSep(b[0], os)
    ensures Combine(a, b, os) == JoinPrefix(a, os) + b
  {
  }

  /* ---------- uploads ---------- */

  const UploadsFolder: string := "uploads"
  const ProfilePicturesFolder: string := "profile_pictures"

  /** The stored name of an upload: `{Guid}_{Path.GetFileName(FileName)}`. */
  function UploadFileName(guid: string, clientFileName: string, os: Platform): string
  {
    guid + "_" + GetFileName(clientFileName, os)
  }

  /** Where a post image is written: `Combine(Combine(webRoot, "uploads"), fileName)`. */
  function PostImageFilePath(webRoot: string, fileName: string, os: Platform): string
  {
    Combine(Combine(webRoot, UploadsFolder, os), fileName, os)
  }

  /** The URL stored for a post image. */
  function PostImageUrl(fileName: string): string
  {
    "/uploads/" + fileName
  }

  /** Where a profile picture is written: `Combine(webRoot, "uploads", "profile_pictures")`, then the name. */
  function ProfilePictureFilePath(webRoot: string, fileName: string, os: Platform): string
  {
    Combine(Combine(Combine(webRoot, UploadsFolder, os), ProfilePicturesFolder, os), fileName, os)
  }

  /** The URL stored for a profile picture. */
  function ProfilePictureUrl(fileName: string): string
  {
    "/uploads/profile_pictures/" + fileName
  }

  /** `DeleteImageFile`'s path: leading '/' trimmed, every '/' replaced by the
      platform separator, combined with the web root. */
  function UrlToFilePath(webRoot: string, imageUrl: string, os: Platform): string
  {
    Combine(webRoot, ReplaceChar(TrimStart(imageUrl, '/'), '/', DirSep(os)), os)
  }

  /** A stored name is non-empty, free of '/', and does not start with a
      separator, provided the GUID part is non-empty and separator-free. */
  lemma UploadFileNameIsPlain(guid: string, clientFileName: string, os: Platform)
    requires guid != [] && forall k :: 0 <= k < |guid| ==> !IsSep(guid[k], os)
    ensures var n := UploadFileName(guid, clientFileName, os);
      n != [] && '/' !in n && !IsSep(n[0], os)
  {
    var n := UploadFileName(guid, clientFileName, os);
    var f := GetFileName(clientFileName, os);
    assert n == guid + "_" + f;
    forall k | 0 <= k < |n| ensures n[k] != '/' {
      if k < |guid| { assert n[k] == guid[k]; }
      else if k > |guid| { assert n[k] == f[k - |guid| - 1]; }
    }
  }

  /** A URL made of '/' and a relative part whose first character is no
      separator maps to that part, '/' turned into the platform separator,
      under the web root. */
  lemma UrlToFilePathOfRooted(webRoot: string, rel: string, os: Platform)
    requires rel != [] && !IsSep(rel[0], os)
    ensures UrlToFilePath(webRoot, "/" + rel, os) == JoinPrefix(webRoot, os) + ReplaceChar(rel, '/', DirSep(os))
  {
    TrimLeadingSlash(rel);
    var mapped := ReplaceChar(rel, '/', DirSep(os));
    assert mapped[0] == rel[0];
    CombineRelative(webRoot, mapped, os);
  }

  lemma TrimLeadingSlash(rel: string)
    requires rel != [] && rel[0] != '/'
    ensures TrimStart("/" + rel, '/') == rel
  {
    var url := "/" + rel;
    assert url[1..] == rel;
  }

  /** Appending a folder name to a prefix that `Combine` produced. */
  lemma JoinPrefixFolder(a: string, folder: string, os: Platform)
    requires folder != [] && !IsSep(folder[0], os) && !IsSep(folder[|folder| - 1], os)
    ensures Combine(a, folder, os) == JoinPrefix(a, os) + folder
    ensures JoinPrefix(Combine(a, folder, os), os) == JoinPrefix(a, os) + folder + [DirSep(os)]
  {
    CombineRelative(a, folder, os);
    var c := JoinPrefix(a, os) + folder;
    assert c[|c| - 1] == folder[|folder| - 1];
  }

  /** Replacing the separators of `folder + "/" + rest` when the folder name
      holds no '/'. */
  lemma ReplaceAfterFolder(folder: string, rest: string, sep: char)
    requires '/' !in folder
    ensures ReplaceChar(folder + "/" + rest, '/', sep) == folder + [sep] + ReplaceChar(rest, '/', sep)
  {
    ReplaceCharAppend(folder + "/", rest, '/', sep);
    ReplaceCharAppend(folder, "/", '/', sep);
    ReplaceCharAbsent(folder, '/', sep);
  }

  /** A folder name that `Combine` joins without a doubled separator. */
  predicate IsPlainName(name: string, os: Platform)
  {
    name != [] && '/' !in name && !IsSep(name[0], os) && !IsSep(name[|name| - 1], os)
  }

  /** `"/" + folder + "/" + name` maps to `Combine(Combine(webRoot, folder), name)`. */
  lemma FolderRoundTrip(webRoot: string, folder: string, fileName: string, os: Platform)
    requires IsPlainName(folder, os)
    requires fileName != [] && '/' !in fileName && !IsSep(fileName[0], os)
    ensures UrlToFilePath(webRoot, "/" + (folder + "/" + fileName), os)
         == Combine(Combine(webRoot, folder, os), fileName, os)
  {
    var sep := DirSep(os);
    var rel := folder + "/" + fileName;
    assert rel[0] == folder[0];
    calc {
      UrlToFilePath(webRoot, "/" + rel, os);
      == { UrlToFilePathOfRooted(webRoot, rel, os); }
      JoinPrefix(webRoot, os) + ReplaceChar(rel, '/', sep);
      == { ReplaceAfterFolder(folder, fileName, sep); ReplaceCharAbsent(fileName, '/', sep); }
      JoinPrefix(webRoot, os) + (folder + [sep] + fileName);
      == (JoinPrefix(webRoot, os) + folder + [sep]) + fileName;
      == { JoinPrefixFolder(webRoot, folder, os); }
      JoinPrefix(Combine(webRoot, folder, os), os) + fileName;
      == { CombineRelative(Combine(webRoot, folder, os), fileName, os); }
      Combine(Combine(webRoot, folder, os), fileName, os);
    }
  }

  /** The URL stored for a post image leads `DeleteImageFile` back to the path
      the upload was written to. */
  lemma PostImageRoundTrip(webRoot: string, fileName: string, os: Platform)
    requires fileName != [] && '/' !in fileName && !IsSep(fileName[0], os)
    ensures UrlToFilePath(webRoot, PostImageUrl(fileName), os) == PostImageFilePath(webRoot, fileName, os)
  {
    assert PostImageUrl(fileName) == "/" + (UploadsFolder + "/" + fileName);
    assert IsPlainName(UploadsFolder, os);
    FolderRoundTrip(webRoot, UploadsFolder, fileName, os);
  }

  /** The same for profile pictures, one folder deeper. */
  lemma ProfilePictureRoundTrip(webRoot: string, fileName: string, os: Platform)
    requires fileName != [] && '/' !in fileName && !IsSep(fileName[0], os)
    ensures UrlToFilePath(webRoot, ProfilePictureUrl(fileName), os) == ProfilePictureFilePath(webRoot, fileName, os)
  {
    var u, p := UploadsFolder, ProfilePicturesFolder;
    var rel := u + "/" + (p + "/" + fileName);
    ProfileUrlShape(fileName, os);
    UrlToFilePathOfRooted(webRoot, rel, os);
    NestedReplace(u, p, fileName, DirSep(os));
    NestedJoin(webRoot, u, p, fileName, os);
  }

  lemma ProfileUrlShape(fileName: string, os: Platform)
    ensures var rel := UploadsFolder + "/" + (ProfilePicturesFolder + "/" + fileName);
      && ProfilePictureUrl(fileName) == "/" + rel
      && rel != [] && !IsSep(rel[0], os)
      && IsPlainName(UploadsFolder, os) && IsPlainName(ProfilePicturesFolder, os)
      && '/' !in UploadsFolder && '/' !in ProfilePicturesFolder
  {
    var rel := UploadsFolder + "/" + (ProfilePicturesFolder + "/" + fileName);
    assert rel[0] == 'u';
  }

  lemma NestedReplace(u: string, p: string, fileName: string, sep: char)
    requires '/' !in u && '/' !in p && '/' !in fileName
    ensures ReplaceChar(u + "/" + (p + "/" + fileName), '/', sep) == u + [sep] + (p + [sep] + fileName)
  {
    ReplaceAfterFolder(u, p + "/" + fileName, sep);
    ReplaceAfterFolder(p, fileName, sep);
    ReplaceCharAbsent(fileName, '/', sep);
  }

  lemma NestedJoin(webRoot: string, u: string, p: string, fileName: string, os: Platform)
    requires IsPlainName(u, os) && IsPlainName(p, os)
    requires fileName != [] && !IsSep(fileName[0], os)
    ensures JoinPrefix(webRoot, os) + (u + [DirSep(os)] + (p + [DirSep(os)] + fileName))
         == Combine(Combine(Combine(webRoot, u, os), p, os), fileName, os)
  {
    var sep := DirSep(os);
    var uploads := Combine(webRoot, u, os);
    JoinPrefixFolder(webRoot, u, os);
    JoinPrefixFolder(uploads, p, os);
    CombineRelative(Combine(uploads, p, os), fileName, os);
    assert JoinPrefix(webRoot, os) + (u + [sep] + (p + [sep] + fileName))
        == (JoinPrefix(webRoot, os) + u + [sep]) + p + [sep] + fileName;
  }

  /** Every upload name the controllers generate survives the round trip. */
  lemma UploadRoundTrip(webRoot: string, guid: string, clientFileName: string, os: Platform)
    requires guid != [] && forall k :: 0 <= k < |guid| ==> !IsSep(guid[k], os)
    ensures var n := UploadFileName(guid, clientFileName, os);
      UrlToFilePath(webRoot, PostImageUrl(n), os) == PostImageFilePath(webRoot, n, os)
      && UrlToFilePath(webRoot, ProfilePictureUrl(n), os) == ProfilePictureFilePath(webRoot, n, os)
  {
    var n := UploadFileName(guid, clientFileName, os);
    UploadFileNameIsPlain(guid, clientFileName, os);
    PostImageRoundTrip(webRoot, n, os);
    ProfilePictureRoundTrip(webRoot, n, os);
  }
}
