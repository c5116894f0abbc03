/** The options page: path validation, saving, resetting and reading the stored settings. */
module Options {
  import opened Wrappers
  import opened Strings
  import opened SettingsTypes

  /** The path used when the path box is blank, and the default path of the stored settings. */
  const DefaultPath := "images/"

  /** The default settings, the same record whether they are written by a reset or read back as fallbacks. */
  const Defaults := SettingsRecord(DefaultPath, Original, false, true, None)

  /**
   * The path validation of `validateSettings` as a value: `None` when the path is refused,
   * otherwise the path it leaves behind.
   */
  function ValidatedPath(path: string): (r: Option<string>)
    ensures r.None? <==> Includes(path, "..") || '\\' in path
    ensures r.Some? ==> EndsWith(r.value, '/')
    ensures r.Some? ==> r.value == path || r.value == path + "/"
    ensures r.Some? && EndsWith(path, '/') ==> r.value == path
  {
    IncludesChar(path, '\\');
    if Includes(path, "..") || Includes(path, "\\") then None
    else if EndsWith(path, '/') then Some(path)
    else Some(path + "/")
  }

  /** An accepted path is accepted again and left as it is: validation is idempotent. */
  lemma ValidatedPathIdempotent(path: string)
    requires ValidatedPath(path).Some?
    ensures ValidatedPath(ValidatedPath(path).value) == ValidatedPath(path)
  {
    if !EndsWith(path, '/') {
      AppendSlashNoDotDot(path);
      assert '\\' !in path + "/";
    }
  }

  /**
   * `validateSettings`: refuses a path with `..` or `\` and changes nothing, or else appends a `/`
   * when the path lacks one; no other field is touched.
   */
  method ValidateSettings(settings: Settings) returns (ok: bool)
    modifies settings
    ensures ok <==> !Includes(old(settings.downloadPath), "..") && '\\' !in old(settings.downloadPath)
    ensures ok ==> EndsWith(settings.downloadPath, '/')
    ensures ok ==> settings.Record() == old(settings.Record()).(downloadPath := ValidatedPath(old(settings.downloadPath)).value)
    ensures !ok ==> settings.Record() == old(settings.Record())
  {
    IncludesChar(settings.downloadPath, '\\');
    if Includes(settings.downloadPath, "..") || Includes(settings.downloadPath, "\\") {
      return false;
    }
    if !EndsWith(settings.downloadPath, '/') {
      settings.downloadPath := settings.downloadPath + "/";
    }
    return true;
  }

  /** The path `saveSettings` starts from: the trimmed input, or the default path when that is empty. */
  function DefaultedPath(input: string): (r: string)
    ensures (forall i :: 0 <= i < |input| ==> IsWhitespace(input[i])) ==> r == DefaultPath
    ensures !(forall i :: 0 <= i < |input| ==> IsWhitespace(input[i])) ==>
      r == Trim(input) && !IsWhitespace(r[0]) && !IsWhitespace(r[|r| - 1])
  {
    var t := Trim(input);
    if t == [] then DefaultPath else t
  }

  /** The default path passes validation unchanged, so a blank path box saves `images/`. */
  lemma BlankPathSavesDefault(input: string)
    requires forall i :: 0 <= i < |input| ==> IsWhitespace(input[i])
    ensures ValidatedPath(DefaultedPath(input)) == Some(DefaultPath)
  {
    DefaultPathAccepted();
  }

  lemma DefaultPathAccepted()
    ensures ValidatedPath(DefaultPath) == Some(DefaultPath)
  {
    NoDotDotInDefault();
    assert EndsWith(DefaultPath, '/');
  }

  lemma NoDotDotInDefault()
    ensures !Includes(DefaultPath, "..")
  {
    if Includes(DefaultPath, "..") {
      IncludesFirstChar(DefaultPath, "..");
    }
  }

  /** `chrome.storage.sync.set(record)`: every key the record carries is overwritten, every other key is kept. */
  function Store(st: SyncStorage, r: SettingsRecord): (s: SyncStorage)
    ensures s.downloadPath == Some(r.downloadPath) && s.fileNaming == Some(r.fileNaming)
    ensures s.autoDownload == Some(r.autoDownload) && s.showNotifications == Some(r.showNotifications)
    ensures r.fileNameTemplate.Some? ==> s.fileNameTemplate == r.fileNameTemplate
    ensures r.fileNameTemplate.None? ==> s.fileNameTemplate == st.fileNameTemplate
  {
    SyncStorage(Some(r.downloadPath), Some(r.fileNaming), Some(r.autoDownload), Some(r.showNotifications),
      if r.fileNameTemplate.Some? then r.fileNameTemplate else st.fileNameTemplate)
  }

  /**
   * `getStoredSettings`: each key of the defaults is read back, with the default where nothing is
   * stored; the template is not among the keys asked for.
   */
  function GetStoredSettings(st: SyncStorage): (r: SettingsRecord)
    ensures r.fileNameTemplate.None?
    ensures st.downloadPath.Some? ==> r.downloadPath == st.downloadPath.value
    ensures st.downloadPath.None? ==> r.downloadPath == DefaultPath
    ensures r.fileNaming == if st.fileNaming.Some? then st.fileNaming.value else Defaults.fileNaming
    ensures r.autoDownload == if st.autoDownload.Some? then st.autoDownload.value else Defaults.autoDownload
    ensures r.showNotifications == if st.showNotifications.Some? then st.showNotifications.value else Defaults.showNotifications
    ensures st == EmptyStorage ==> r == Defaults
  {
    SettingsRecord(
      st.downloadPath.GetOr(Defaults.downloadPath),
      st.fileNaming.GetOr(Defaults.fileNaming),
      st.autoDownload.GetOr(Defaults.autoDownload),
      st.showNotifications.GetOr(Defaults.showNotifications),
      None)
  }

  /** What is stored without a template is read back exactly. */
  lemma StoreThenGet(st: SyncStorage, r: SettingsRecord)
    requires r.fileNameTemplate.None?
    ensures GetStoredSettings(Store(st, r)) == r
  {
  }

  /**
   * `saveSettings`: builds a record from the form with the defaulted path, validates it, and
   * stores it only when validation accepts it.
   */
  method SaveSettings(form: OptionsForm, storage: SyncStorage) returns (ok: bool, stored: SyncStorage)
    ensures ok <==> ValidatedPath(DefaultedPath(form.pathInput)).Some?
    ensures ok ==> stored == Store(storage, SettingsRecord(ValidatedPath(DefaultedPath(form.pathInput)).value,
      form.fileNaming, form.autoDownload, form.showNotifications, None))
    ensures ok ==> EndsWith(GetStoredSettings(stored).downloadPath, '/')
    ensures !ok ==> stored == storage
  {
    var settings := new Settings(SettingsRecord(DefaultedPath(form.pathInput),
      form.fileNaming, form.autoDownload, form.showNotifications, None));
    ok := ValidateSettings(settings);
    if !ok {
      return ok, storage;
    }
    stored := Store(storage, settings.Record());
  }

  /** `resetSettings`: stores the defaults and puts them in the form. */
  method ResetSettings(form: OptionsForm, storage: SyncStorage) returns (stored: SyncStorage)
    modifies form
    ensures stored == Store(storage, Defaults)
    ensures GetStoredSettings(stored) == Defaults
    ensures form.pathInput == Defaults.downloadPath && form.fileNaming == Defaults.fileNaming
    ensures form.autoDownload == Defaults.autoDownload && form.showNotifications == Defaults.showNotifications
  {
    stored := Store(storage, Defaults);
    form.pathInput := Defaults.downloadPath;
    form.fileNaming := Defaults.fileNaming;
    form.autoDownload := Defaults.autoDownload;
    form.showNotifications := Defaults.showNotifications;
  }

  /** `loadSettings`: puts the stored settings, defaults filled in, into the form. */
  method LoadSettings(form: OptionsForm, storage: SyncStorage)
    modifies form
    ensures var r := GetStoredSettings(storage);
      form.pathInput == r.downloadPath && form.fileNaming == r.fileNaming
      && form.autoDownload == r.autoDownload && form.showNotifications == r.showNotifications
  {
    var r := GetStoredSettings(storage);
    form.pathInput := r.downloadPath;
    form.fileNaming := r.fileNaming;
    form.autoDownload := r.autoDownload;
    form.showNotifications := r.showNotifications;
  }

  /** A save followed by a load puts the accepted path, slash-terminated, back into the form. */
  lemma SaveThenLoad(st: SyncStorage, input: string, naming: FileNaming, auto: bool, notify: bool)
    requires ValidatedPath(DefaultedPath(input)).Some?
    ensures var p := ValidatedPath(DefaultedPath(input)).value;
      GetStoredSettings(Store(st, SettingsRecord(p, naming, auto, notify, None)))
        == SettingsRecord(p, naming, auto, notify, None)
      && EndsWith(p, '/') && !Includes(p, "..")
  {
    var p := ValidatedPath(DefaultedPath(input)).value;
    ValidatedPathIdempotent(DefaultedPath(input));
  }
}
