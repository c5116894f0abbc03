/** The `Settings` record of the options page, the form that edits it and the synced storage that keeps it. */
module SettingsTypes {
  import opened Wrappers

  /** The four file-naming modes the record admits. */
  datatype FileNaming = Original | Timestamp | Sequential | Template

  /** A snapshot of the fields of a `Settings` object. */
  datatype SettingsRecord = SettingsRecord(
    downloadPath: string,
    fileNaming: FileNaming,
    autoDownload: bool,
    showNotifications: bool,
    fileNameTemplate: Option<string>)

  /** A `Settings` object: the options page builds one and validation edits its path in place. */
  class Settings {
    var downloadPath: string
    var fileNaming: FileNaming
    var autoDownload: bool
    var showNotifications: bool
    var fileNameTemplate: Option<string>

    constructor (r: SettingsRecord)
      ensures Record() == r
    {
      downloadPath := r.downloadPath;
      fileNaming := r.fileNaming;
      autoDownload := r.autoDownload;
      showNotifications := r.showNotifications;
      fileNameTemplate := r.fileNameTemplate;
    }

    /** The current values of the fields. */
    function Record(): SettingsRecord
      reads this
    {
      SettingsRecord(downloadPath, fileNaming, autoDownload, showNotifications, fileNameTemplate)
    }
  }

  /** The inputs of the options page: the path text box, the naming select and the two check boxes. */
  class OptionsForm {
    var pathInput: string
    var fileNaming: FileNaming
    var autoDownload: bool
    var showNotifications: bool

    constructor (pathInput: string, fileNaming: FileNaming, autoDownload: bool, showNotifications: bool)
      ensures this.pathInput == pathInput && this.fileNaming == fileNaming
      ensures this.autoDownload == autoDownload && this.showNotifications == showNotifications
    {
      this.pathInput := pathInput;
      this.fileNaming := fileNaming;
      this.autoDownload := autoDownload;
      this.showNotifications := showNotifications;
    }
  }

  /** Synced extension storage: each key of the record is either stored or absent. */
  datatype SyncStorage = SyncStorage(
    downloadPath: Option<string>,
    fileNaming: Option<FileNaming>,
    autoDownload: Option<bool>,
    showNotifications: Option<bool>,
    fileNameTemplate: Option<string>)

  const EmptyStorage := SyncStorage(None, None, None, None, None)
}
