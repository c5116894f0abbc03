/** The background worker: generated download names, the download target and the message dispatch. */
module Background {
  import opened Wrappers
  import opened Strings

  /** `pathname.split('/').pop() || 'image.jpg'`: the last path segment, or `image.jpg` when it is empty. */
  function LastSegment(pathname: string): (r: string)
    ensures |r| > 0 && '/' !in r
    ensures |AfterLast(pathname, '/')| > 0 ==> r == AfterLast(pathname, '/')
    ensures |AfterLast(pathname, '/')| == 0 ==> r == "image.jpg"
  {
    var last := AfterLast(pathname, '/');
    if |last| == 0 then "image.jpg" else last
  }

  /** The ISO time with every `:` and `.` replaced by `-`. */
  function TimestampPart(isoTime: string): (r: string)
    ensures |r| == |isoTime| && ':' !in r && '.' !in r
    ensures forall i :: 0 <= i < |r| ==> r[i] == if isoTime[i] == ':' || isoTime[i] == '.' then '-' else isoTime[i]
    ensures '/' !in isoTime ==> '/' !in r
  {
    ReplaceColonsAndDots(isoTime)
  }

  /** `filename.split('.').pop() || 'jpg'`, as the code has it: with no `.` this is the whole name. */
  function ExtensionAsWritten(filename: string): (r: string)
    ensures |r| > 0 && '.' !in r
    ensures '/' !in filename ==> '/' !in r
    ensures |AfterLast(filename, '.')| > 0 ==> r == AfterLast(filename, '.')
    ensures |AfterLast(filename, '.')| == 0 ==> r == "jpg"
  {
    var ext := AfterLast(filename, '.');
    assert '/' !in filename ==> '/' !in ext by {
      if '/' !in filename {
        SliceKeepsAbsent(filename, |filename| - |ext|, |filename|, '/');
      }
    }
    if |ext| == 0 then "jpg" else ext
  }

  /** The extension as intended: the text after the last `.`, and `jpg` when there is none. */
  function Extension(filename: string): (r: string)
    ensures |r| > 0 && '.' !in r
    ensures '/' !in filename ==> '/' !in r
    ensures '.' in filename && |AfterLast(filename, '.')| > 0 ==> r == AfterLast(filename, '.')
    ensures '.' !in filename ==> r == "jpg"
    ensures |AfterLast(filename, '.')| == 0 ==> r == "jpg"
  {
    var ext := AfterLast(filename, '.');
    assert '/' !in filename ==> '/' !in ext by {
      if '/' !in filename {
        SliceKeepsAbsent(filename, |filename| - |ext|, |filename|, '/');
      }
    }
    if '.' !in filename || |ext| == 0 then "jpg" else ext
  }

  /** The name `stem_timestamp.ext` made from its three parts. */
  function Compose(stem: string, ts: string, ext: string): string {
    stem + "_" + ts + "." + ext
  }

  /** Splitting a composed name at its first and at its last `.` gives its parts back. */
  lemma ComposeParts(stem: string, ts: string, ext: string)
    requires '.' !in stem && '.' !in ts && '.' !in ext
    ensures BeforeFirst(Compose(stem, ts, ext), '.') == stem + "_" + ts
    ensures AfterLast(Compose(stem, ts, ext), '.') == ext
  {
    var a := stem + "_" + ts;
    assert '.' !in a;
    assert Compose(stem, ts, ext) == a + ['.'] + ext;
    BeforeFirstJoin(a, ext, '.');
    AfterLastJoin(a, ext, '.');
  }

  /** A composed name is a single path segment when its parts are. */
  lemma ComposeNoSlash(stem: string, ts: string, ext: string)
    requires '/' !in stem && '/' !in ts && '/' !in ext
    ensures '/' !in Compose(stem, ts, ext)
  {
  }

  /**
   * `generateFilename` as written, with the URL's pathname and the ISO time as inputs: the stem up to
   * the first `.`, an underscore, the timestamp, a `.` and the extension as the code computes it.
   */
  function GenerateFilenameAsWritten(pathname: string, isoTime: string): (r: string)
    ensures BeforeFirst(r, '.') == BeforeFirst(LastSegment(pathname), '.') + "_" + TimestampPart(isoTime)
    ensures AfterLast(r, '.') == ExtensionAsWritten(LastSegment(pathname))
    ensures r == BeforeFirst(r, '.') + "." + AfterLast(r, '.')
    ensures '/' !in isoTime ==> '/' !in r
  {
    var filename := LastSegment(pathname);
    var stem := BeforeFirst(filename, '.');
    var ts := TimestampPart(isoTime);
    var ext := ExtensionAsWritten(filename);
    ComposeParts(stem, ts, ext);
    assert '/' !in isoTime ==> '/' !in Compose(stem, ts, ext) by {
      if '/' !in isoTime {
        assert '/' !in stem by {
          SliceKeepsAbsent(filename, 0, |stem|, '/');
          assert filename[0..|stem|] == stem;
        }
        ComposeNoSlash(stem, ts, ext);
      }
    }
    Compose(stem, ts, ext)
  }

  /** The name of a file without a `.` comes out with the name itself as its extension, not `jpg`. */
  lemma {:induction false} AsWrittenRepeatsName(dir: string, name: string, isoTime: string)
    requires |name| > 0 && '/' !in name && '.' !in name
    ensures AfterLast(GenerateFilenameAsWritten(dir + "/" + name, isoTime), '.') == name
    ensures AfterLast(GenerateFilename(dir + "/" + name, isoTime), '.') == "jpg"
  {
    assert dir + "/" + name == dir + ['/'] + name;
    AfterLastJoin(dir, name, '/');
  }

  /** A concrete instance: the pathname `/photo` gets the extension `photo`. */
  lemma PhotoExample(isoTime: string)
    ensures AfterLast(GenerateFilenameAsWritten("/photo", isoTime), '.') == "photo"
  {
    assert "/photo" == "" + "/" + "photo";
    AsWrittenRepeatsName("", "photo", isoTime);
  }

  /** `generateFilename` with the extension defaulting to `jpg` when the name has no `.`. */
  function GenerateFilename(pathname: string, isoTime: string): (r: string)
    ensures BeforeFirst(r, '.') == BeforeFirst(LastSegment(pathname), '.') + "_" + TimestampPart(isoTime)
    ensures AfterLast(r, '.') == Extension(LastSegment(pathname))
    ensures r == BeforeFirst(r, '.') + "." + AfterLast(r, '.')
    ensures '/' !in isoTime ==> '/' !in r
  {
    var filename := LastSegment(pathname);
    var stem := BeforeFirst(filename, '.');
    var ts := TimestampPart(isoTime);
    var ext := Extension(filename);
    ComposeParts(stem, ts, ext);
    assert '/' !in isoTime ==> '/' !in Compose(stem, ts, ext) by {
      if '/' !in isoTime {
        assert '/' !in stem by {
          SliceKeepsAbsent(filename, 0, |stem|, '/');
          assert filename[0..|stem|] == stem;
        }
        ComposeNoSlash(stem, ts, ext);
      }
    }
    Compose(stem, ts, ext)
  }

  /** A name that has an extension gets the same one from both versions. */
  lemma SameWhenNameHasDot(pathname: string, isoTime: string)
    requires '.' in LastSegment(pathname)
    ensures GenerateFilename(pathname, isoTime) == GenerateFilenameAsWritten(pathname, isoTime)
  {
  }

  /**
   * The file `downloadImage` asks for, as the code has it: the download path followed by the caller's
   * file name when one is given and not empty, else by the name `generateFilename` makes as written.
   * `pathname` is `None` when the URL does not parse, in which case the error is caught and nothing
   * is downloaded.
   */
  function DownloadTargetAsWritten(downloadPath: string, filename: Option<string>, pathname: Option<string>, isoTime: string)
    : (r: Option<string>)
    ensures r.None? <==> (filename.None? || |filename.value| == 0) && pathname.None?
    ensures r.Some? ==> |downloadPath| <= |r.value| && r.value[..|downloadPath|] == downloadPath
    ensures filename.Some? && |filename.value| > 0 ==> r == Some(downloadPath + filename.value)
    ensures (filename.None? || |filename.value| == 0) && pathname.Some? ==>
      r == Some(downloadPath + GenerateFilenameAsWritten(pathname.value, isoTime))
  {
    if filename.Some? && |filename.value| > 0 then Some(downloadPath + filename.value)
    else if pathname.None? then None
    else Some(downloadPath + GenerateFilenameAsWritten(pathname.value, isoTime))
  }

  /** The download target with the generated name's extension defaulting to `jpg`. */
  function DownloadTarget(downloadPath: string, filename: Option<string>, pathname: Option<string>, isoTime: string)
    : (r: Option<string>)
    ensures r.None? <==> (filename.None? || |filename.value| == 0) && pathname.None?
    ensures r.Some? ==> |downloadPath| <= |r.value| && r.value[..|downloadPath|] == downloadPath
    ensures filename.Some? && |filename.value| > 0 ==> r == Some(downloadPath + filename.value)
    ensures (filename.None? || |filename.value| == 0) && pathname.Some? ==>
      r == Some(downloadPath + GenerateFilename(pathname.value, isoTime))
  {
    if filename.Some? && |filename.value| > 0 then Some(downloadPath + filename.value)
    else if pathname.None? then None
    else Some(downloadPath + GenerateFilename(pathname.value, isoTime))
  }

  /**
   * The two targets differ only for a generated name whose last path segment has no `.`: with a
   * caller's name, without a URL, or with a `.` in the segment they are the same.
   */
  lemma DownloadTargetsAgree(downloadPath: string, filename: Option<string>, pathname: Option<string>, isoTime: string)
    requires (filename.Some? && |filename.value| > 0) || pathname.None? || '.' in LastSegment(pathname.value)
    ensures DownloadTarget(downloadPath, filename, pathname, isoTime)
      == DownloadTargetAsWritten(downloadPath, filename, pathname, isoTime)
  {
    if !(filename.Some? && |filename.value| > 0) && pathname.Some? {
      SameWhenNameHasDot(pathname.value, isoTime);
    }
  }

  /**
   * Without a caller's name, and with a folder path ending in `/`, the target's last segment is the
   * generated name, so the file lands directly in the folder.
   */
  lemma GeneratedTargetInFolder(downloadPath: string, pathname: string, isoTime: string)
    requires EndsWith(downloadPath, '/') && '/' !in isoTime
    ensures DownloadTarget(downloadPath, None, Some(pathname), isoTime).Some?
    ensures AfterLast(DownloadTarget(downloadPath, None, Some(pathname), isoTime).value, '/')
      == GenerateFilename(pathname, isoTime)
    ensures BeforeFirst(AfterLast(DownloadTarget(downloadPath, None, Some(pathname), isoTime).value, '/'), '.')
      == BeforeFirst(LastSegment(pathname), '.') + "_" + TimestampPart(isoTime)
  {
    var g := GenerateFilename(pathname, isoTime);
    assert DownloadTarget(downloadPath, None, Some(pathname), isoTime) == Some(downloadPath + g);
    InFolder(downloadPath, g);
  }

  /**
   * As written, the file downloaded for a URL whose last segment has no `.` lands in the folder with
   * that segment as its extension.
   */
  lemma AsWrittenDownloadRepeatsName(downloadPath: string, dir: string, name: string, isoTime: string)
    requires EndsWith(downloadPath, '/') && '/' !in isoTime
    requires |name| > 0 && '/' !in name && '.' !in name
    ensures DownloadTargetAsWritten(downloadPath, None, Some(dir + "/" + name), isoTime).Some?
    ensures AfterLast(AfterLast(DownloadTargetAsWritten(downloadPath, None, Some(dir + "/" + name), isoTime).value, '/'), '.')
      == name
  {
    var g := GenerateFilenameAsWritten(dir + "/" + name, isoTime);
    assert DownloadTargetAsWritten(downloadPath, None, Some(dir + "/" + name), isoTime) == Some(downloadPath + g);
    InFolder(downloadPath, g);
    AsWrittenRepeatsName(dir, name, isoTime);
  }

  /** A name without `/` after a folder path ending in `/` is the last segment of the joined path. */
  lemma InFolder(folder: string, name: string)
    requires EndsWith(folder, '/') && '/' !in name
    ensures AfterLast(folder + name, '/') == name
  {
    var p := folder[..|folder| - 1];
    assert folder == p + ['/'];
    assert folder + name == p + ['/'] + name;
    AfterLastJoin(p, name, '/');
  }

  /** The work the message listener starts. */
  datatype Action = DownloadImage(imageUrl: string, filename: Option<string>) | GetSettings | SaveSettings | Warn(kind: string)

  /** A message: its `type` string and the fields a download request carries. */
  datatype Request = Request(kind: string, imageUrl: string, filename: Option<string>)

  /** What the listener does with a message, and whether it returns `true` to keep the channel open. */
  datatype Dispatched = Dispatched(action: Action, keepsChannelOpen: bool)

  /** The `switch` over the message type in the `onMessage` listener. */
  function Dispatch(request: Request): (r: Dispatched)
    ensures r.keepsChannelOpen <==> request.kind == "GET_SETTINGS" || request.kind == "SAVE_SETTINGS"
    ensures r.action.DownloadImage? <==> request.kind == "DOWNLOAD_IMAGE"
    ensures r.action.DownloadImage? ==> r.action == DownloadImage(request.imageUrl, request.filename)
    ensures r.action.GetSettings? <==> request.kind == "GET_SETTINGS"
    ensures r.action.SaveSettings? <==> request.kind == "SAVE_SETTINGS"
    ensures r.action.Warn? <==> request.kind !in {"DOWNLOAD_IMAGE", "GET_SETTINGS", "SAVE_SETTINGS"}
  {
    match request.kind
    case "DOWNLOAD_IMAGE" => Dispatched(DownloadImage(request.imageUrl, request.filename), false)
    case "GET_SETTINGS" => Dispatched(GetSettings, true)
    case "SAVE_SETTINGS" => Dispatched(SaveSettings, true)
    case _ => Dispatched(Warn(request.kind), false)
  }
}
