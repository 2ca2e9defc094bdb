/**
 * The configuration of the Git service that pulls topic documentation from a
 * repository: its validation rule and its defaults.
 */
module GitConfig {
  import opened Wrappers
  import opened GoInts

  /** Go's time.Duration counts nanoseconds. */
  const Nanosecond: Int64 := 1
  const Second: Int64 := 1000 * 1000 * 1000 * Nanosecond
  const Minute: Int64 := 60 * Second

  /** The default limit on the size of a documentation file (500 KB). */
  const DefaultMaxFileSize: Int64 := 500 * 1000

  /** An error value, as returned through Go's error interface. */
  datatype Error = Error(message: string)

  const RefreshIntervalDisabled := Error("git config is enabled but refresh interval is set to 0 (disabled)")

  /**
   * The Git service configuration. The repository, basic-auth and SSH
   * sub-configurations are kept abstract as type parameters; validating the
   * repository is a function handed to Validate.
   */
  class Config<Repository, BasicAuth, Ssh> {
    var enabled: bool
    var allowedFileExtensions: seq<string>
    var maxFileSize: Int64
    var indexByFullFilepath: bool
    var refreshInterval: Int64
    var repository: Repository
    var basicAuth: BasicAuth
    var ssh: Ssh

    constructor (enabled: bool, allowedFileExtensions: seq<string>, maxFileSize: Int64,
                 indexByFullFilepath: bool, refreshInterval: Int64,
                 repository: Repository, basicAuth: BasicAuth, ssh: Ssh)
      ensures this.enabled == enabled && this.allowedFileExtensions == allowedFileExtensions
      ensures this.maxFileSize == maxFileSize && this.indexByFullFilepath == indexByFullFilepath
      ensures this.refreshInterval == refreshInterval && this.repository == repository
      ensures this.basicAuth == basicAuth && this.ssh == ssh
    {
      this.enabled := enabled;
      this.allowedFileExtensions := allowedFileExtensions;
      this.maxFileSize := maxFileSize;
      this.indexByFullFilepath := indexByFullFilepath;
      this.refreshInterval := refreshInterval;
      this.repository := repository;
      this.basicAuth := basicAuth;
      this.ssh := ssh;
    }

    /**
     * Validation: a disabled configuration is always valid, an enabled one
     * needs a non-zero refresh interval and then is as valid as its repository.
     */
    function Validate(validateRepository: Repository -> Option<Error>): (err: Option<Error>)
      reads this
      ensures !enabled ==> err == None
      ensures enabled && refreshInterval == 0 ==> err == Some(RefreshIntervalDisabled)
      ensures enabled && refreshInterval != 0 ==> err == validateRepository(repository)
    {
      if !enabled then None
      else if refreshInterval == 0 then Some(RefreshIntervalDisabled)
      else validateRepository(repository)
    }

    /** Sets the refresh interval, the file-size limit and the keying mode to their defaults. */
    method SetDefaults()
      modifies this
      ensures refreshInterval == Minute
      ensures maxFileSize == DefaultMaxFileSize
      ensures !indexByFullFilepath
      ensures enabled == old(enabled) && allowedFileExtensions == old(allowedFileExtensions)
      ensures repository == old(repository) && basicAuth == old(basicAuth) && ssh == old(ssh)
      ensures forall v: Repository -> Option<Error> ::
                Validate(v) == if enabled then v(repository) else None
    {
      refreshInterval := Minute;
      maxFileSize := DefaultMaxFileSize;
      indexByFullFilepath := false;
    }
  }

  /**
   * The refresh-interval error is reported only for an enabled configuration
   * whose interval is zero, as long as the repository check never reports that
   * same error itself.
   */
  lemma RefreshErrorMeansZeroInterval<R, B, S>(c: Config<R, B, S>, validateRepository: R -> Option<Error>)
    requires validateRepository(c.repository) != Some(RefreshIntervalDisabled)
    ensures c.Validate(validateRepository) == Some(RefreshIntervalDisabled) <==> c.enabled && c.refreshInterval == 0
  {
  }

  /** A configuration with the default interval never fails for its refresh interval. */
  lemma DefaultIntervalPassesRefreshCheck<R, B, S>(c: Config<R, B, S>, validateRepository: R -> Option<Error>)
    requires c.refreshInterval == Minute
    ensures c.Validate(validateRepository) == None || c.Validate(validateRepository) == validateRepository(c.repository)
  {
  }
}
