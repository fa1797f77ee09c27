/**
 * The fetcher's configuration: the built-in defaults, the merge of a JSON settings file
 * and the process environment performed by `load_config`, and `validate_config`.
 */
module Config {
  import opened Wrappers

  /** Who to search for: the two banks' sender addresses and the subject keywords. */
  datatype SearchCriteria = SearchCriteria(
    hdfcSenders: seq<string>,
    idfcSenders: seq<string>,
    subjectKeywords: seq<string>)

  /** Which parts go in front of the sanitised attachment name. */
  datatype FileNaming = FileNaming(
    includeTimestamp: bool,
    includeBankName: bool,
    includeStatementDate: bool)

  /** The accepted attachment sizes, in bytes, and the extensions setting. */
  datatype Filters = Filters(
    minFileSize: int,
    maxFileSize: int,
    allowedExtensions: seq<string>)

  /**
   * The merged configuration. The port is kept as the text it was read as; its
   * conversion to an integer is not part of this model.
   */
  datatype Config = Config(
    emailAddress: string,
    password: string,
    imapServer: string,
    imapPort: string,
    downloadFolder: string,
    searchCriteria: SearchCriteria,
    fileNaming: FileNaming,
    filters: Filters)

  const DefaultImapServer: string := "imap.gmail.com"
  const DefaultImapPort: string := "993"
  const DefaultDownloadFolder: string := "data/raw_emails"

  const DefaultSearchCriteria: SearchCriteria := SearchCriteria(
    ["creditcards@hdfcbank.net", "creditcard@hdfcbank.net", "statements@hdfcbank.com"],
    ["statements@idfcfirstbank.com", "creditcard@idfcfirstbank.com", "noreply@idfcfirstbank.com"],
    ["statement", "credit card", "bill", "HDFC", "IDFC", "Credit Card Statement", "Monthly Statement"])

  const DefaultFileNaming: FileNaming := FileNaming(true, true, true)

  /** 1 KB to 10 MB, PDF only. */
  const DefaultFilters: Filters := Filters(1024, 10485760, [".pdf"])

  /**
   * `_get_default_config`: empty credentials, so the defaults alone never pass validation,
   * every name part switched on, and a non-empty window of accepted sizes.
   */
  function DefaultConfig(): (c: Config)
    ensures ValidateConfig(c) == Some(MissingAddress)
    ensures c.fileNaming.includeTimestamp && c.fileNaming.includeBankName && c.fileNaming.includeStatementDate
    ensures 0 < c.filters.minFileSize <= c.filters.maxFileSize
  {
    Config("", "", DefaultImapServer, DefaultImapPort, DefaultDownloadFolder,
           DefaultSearchCriteria, DefaultFileNaming, DefaultFilters)
  }

  /**
   * The parsed settings file: each top-level key it may carry, present or not. The
   * credential keys may appear in the file too; the merge ignores them.
   */
  datatype ConfigFile = ConfigFile(
    downloadFolder: Option<string>,
    searchCriteria: Option<SearchCriteria>,
    fileNaming: Option<FileNaming>,
    filters: Option<Filters>,
    emailAddress: Option<string>,
    password: Option<string>,
    imapServer: Option<string>,
    imapPort: Option<string>)

  /** `os.environ.get(key, default)`. */
  function EnvGet(env: map<string, string>, key: string, default: string): string
  {
    if key in env then env[key] else default
  }

  function Override<T>(setting: Option<T>, current: T): T
  {
    if setting.Some? then setting.value else current
  }

  /**
   * `load_config`: start from the defaults, take the four whitelisted settings from the
   * file when it could be read (`None` when it is missing or unreadable), then always
   * take the credentials and the server from the environment.
   */
  function LoadConfig(file: Option<ConfigFile>, env: map<string, string>): (c: Config)
    ensures file.Some? && file.value.downloadFolder.Some? ==> c.downloadFolder == file.value.downloadFolder.value
    ensures file.Some? && file.value.searchCriteria.Some? ==> c.searchCriteria == file.value.searchCriteria.value
    ensures file.Some? && file.value.fileNaming.Some? ==> c.fileNaming == file.value.fileNaming.value
    ensures file.Some? && file.value.filters.Some? ==> c.filters == file.value.filters.value
    ensures (file.None? || file.value.downloadFolder.None?) ==> c.downloadFolder == DefaultDownloadFolder
    ensures (file.None? || file.value.searchCriteria.None?) ==> c.searchCriteria == DefaultSearchCriteria
    ensures (file.None? || file.value.fileNaming.None?) ==> c.fileNaming == DefaultFileNaming
    ensures (file.None? || file.value.filters.None?) ==> c.filters == DefaultFilters
    ensures c.emailAddress == EnvGet(env, "EMAIL_ADDRESS", "") && c.password == EnvGet(env, "EMAIL_PASSWORD", "")
    ensures c.imapServer == EnvGet(env, "IMAP_SERVER", DefaultImapServer)
    ensures c.imapPort == EnvGet(env, "IMAP_PORT", DefaultImapPort)
  {
    var d := DefaultConfig();
    var merged :=
      if file.None? then d
      else d.(downloadFolder := Override(file.value.downloadFolder, d.downloadFolder),
              searchCriteria := Override(file.value.searchCriteria, d.searchCriteria),
              fileNaming := Override(file.value.fileNaming, d.fileNaming),
              filters := Override(file.value.filters, d.filters));
    merged.(emailAddress := EnvGet(env, "EMAIL_ADDRESS", ""),
            password := EnvGet(env, "EMAIL_PASSWORD", ""),
            imapServer := EnvGet(env, "IMAP_SERVER", DefaultImapServer),
            imapPort := EnvGet(env, "IMAP_PORT", DefaultImapPort))
  }

  /** The settings file's keys that the merge takes. */
  predicate SameWhitelisted(f: ConfigFile, g: ConfigFile)
  {
    f.downloadFolder == g.downloadFolder && f.searchCriteria == g.searchCriteria &&
    f.fileNaming == g.fileNaming && f.filters == g.filters
  }

  /**
   * Only the four whitelisted keys of the file matter: two files that agree on them give
   * the same configuration, whatever credentials either of them carries; and a file with
   * none of them set gives the same configuration as no file at all.
   */
  lemma LoadConfigUsesOnlyWhitelisted(f: ConfigFile, g: ConfigFile, env: map<string, string>)
    ensures SameWhitelisted(f, g) ==> LoadConfig(Some(f), env) == LoadConfig(Some(g), env)
    ensures (f.downloadFolder.None? && f.searchCriteria.None? && f.fileNaming.None? &&
             f.filters.None?) ==> LoadConfig(Some(f), env) == LoadConfig(None, env)
  {
  }

  /** The credentials and the server come from the environment, never from the file. */
  lemma LoadConfigCredentials(file: Option<ConfigFile>, env: map<string, string>)
    ensures var c := LoadConfig(file, env);
      && c.emailAddress == (if "EMAIL_ADDRESS" in env then env["EMAIL_ADDRESS"] else "")
      && c.password == (if "EMAIL_PASSWORD" in env then env["EMAIL_PASSWORD"] else "")
      && c.imapServer == (if "IMAP_SERVER" in env then env["IMAP_SERVER"] else "imap.gmail.com")
      && c.imapPort == (if "IMAP_PORT" in env then env["IMAP_PORT"] else "993")
  {
  }

  /** Why a configuration is unusable, in the order `validate_config` checks. */
  datatype ConfigError = MissingAddress | MissingPassword | MissingServer

  /**
   * `validate_config`: `None` when the address, the password and the server are all set,
   * otherwise the first one that is empty.
   */
  function ValidateConfig(c: Config): (problem: Option<ConfigError>)
    ensures problem.None? <==> c.emailAddress != "" && c.password != "" && c.imapServer != ""
    ensures problem == Some(MissingAddress) <==> c.emailAddress == ""
    ensures problem == Some(MissingPassword) <==> c.emailAddress != "" && c.password == ""
    ensures problem == Some(MissingServer) <==>
      c.emailAddress != "" && c.password != "" && c.imapServer == ""
  {
    if c.emailAddress == "" then Some(MissingAddress)
    else if c.password == "" then Some(MissingPassword)
    else if c.imapServer == "" then Some(MissingServer)
    else None
  }

  /**
   * A freshly loaded configuration is valid exactly when the environment sets a non-empty
   * address and password and does not set the server to the empty string; the settings
   * file has no say in it.
   */
  lemma LoadedConfigValid(file: Option<ConfigFile>, env: map<string, string>)
    ensures ValidateConfig(LoadConfig(file, env)).None? <==>
      && "EMAIL_ADDRESS" in env && env["EMAIL_ADDRESS"] != ""
      && "EMAIL_PASSWORD" in env && env["EMAIL_PASSWORD"] != ""
      && ("IMAP_SERVER" in env ==> env["IMAP_SERVER"] != "")
  {
    LoadConfigCredentials(file, env);
  }
}
