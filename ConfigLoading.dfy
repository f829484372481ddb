/**
 * `GetConfig` and `AttachToDockerContainerConfig`: the decision taken on the
 * configuration document once it has been read and deserialized. Reading the
 * file and the JSON serializer are not modelled; their outcome is the input.
 */
module ConfigLoading {
  import opened Wrappers

  /** `AttachToDockerContainerConfig`; `None` stands for a `null` name array. */
  datatype ConfigObject = ConfigObject(debuggableProcessNames: Option<seq<string>>)

  /** The default config: an empty, non-null name array. */
  const DefaultConfig: ConfigObject := ConfigObject(Some([]))

  /**
   * What reading and deserializing the document produced: an exception with
   * its message (no solution, missing file, malformed JSON), or the
   * serializer's result, `None` when it returned `null`.
   */
  datatype ConfigSource =
    | Unreadable(message: string)
    | Deserialized(config: Option<ConfigObject>)

  const SuccessStatus: string := "Configuration successfully loaded."
  const FailurePrefix: string := "Problem loading <solution root>\\container-debug-config.json: "
  const EmptyNamesMessage: string := "Missing or empty DebuggableProcessNames."
  /** The message of the `NullReferenceException` raised on a `null` config. */
  const NullConfigMessage: string := "Object reference not set to an instance of an object."
  /** The message of the `ArgumentNullException` raised by `Any()` on a `null` array. */
  const NullNamesMessage: string := "Value cannot be null.\r\nParameter name: source"

  /** The message of the exception the `try` block raises for `src`, if any. */
  function Failure(src: ConfigSource): (r: Option<string>)
    ensures r.None? <==>
              src.Deserialized? && src.config.Some? && src.config.value.debuggableProcessNames.Some?
              && src.config.value.debuggableProcessNames.value != []
    ensures src.Unreadable? ==> r == Some(src.message)
    ensures src == Deserialized(None) ==> r == Some(NullConfigMessage)
    ensures src == Deserialized(Some(ConfigObject(None))) ==> r == Some(NullNamesMessage)
    ensures src == Deserialized(Some(DefaultConfig)) ==> r == Some(EmptyNamesMessage)
  {
    match src
    case Unreadable(m) => Some(m)
    case Deserialized(None) => Some(NullConfigMessage)
    case Deserialized(Some(ConfigObject(None))) => Some(NullNamesMessage)
    case Deserialized(Some(ConfigObject(Some(names)))) =>
      if names == [] then Some(EmptyNamesMessage) else None
  }

  /** The status line: the success text, or the fixed prefix followed by the exception's message. */
  function StatusFor(src: ConfigSource): (r: string)
    ensures r == SuccessStatus <==> Failure(src).None?
    ensures Failure(src).Some? ==> |r| >= |FailurePrefix| && r[..|FailurePrefix|] == FailurePrefix
  {
    match Failure(src)
    case None => SuccessStatus
    case Some(m) =>
      assert |SuccessStatus| < |FailurePrefix|;
      FailurePrefix + m
  }

  /**
   * `GetConfig` as written: `config` is overwritten by whatever the serializer
   * returned before the check that fails, so the returned config can be
   * `null` (`None`) or hold a `null` array.
   */
  function GetConfigAsWritten(src: ConfigSource): (r: (Option<ConfigObject>, string))
    ensures r.1 == SuccessStatus <==> Failure(src).None?
    ensures src.Deserialized? ==> r.0 == src.config
    ensures src.Unreadable? ==> r.0 == Some(DefaultConfig) && r.1 == FailurePrefix + src.message
  {
    match src
    case Unreadable(_) => (Some(DefaultConfig), StatusFor(src))
    case Deserialized(c) => (c, StatusFor(src))
  }

  /**
   * The documents on which the config returned as written has no name array:
   * the dialog's constructor then dereferences it (`GetProcessNames`,
   * `processNames.Any()`) and throws, although loading reported a failure.
   */
  lemma AsWrittenReturnsNoNames()
    ensures GetConfigAsWritten(Deserialized(None)).0 == None
    ensures GetConfigAsWritten(Deserialized(Some(ConfigObject(None)))).0 == Some(ConfigObject(None))
    ensures GetConfigAsWritten(Deserialized(None)).1 != SuccessStatus
  {
  }

  /** The outcome of loading: the process names to offer and the status line. */
  datatype Loaded = Loaded(processNames: seq<string>, status: string)

  /**
   * `GetConfig` with the evidently intended fallback: every failure yields
   * the default config, with the status naming the cause.
   */
  function GetConfig(src: ConfigSource): (r: Loaded)
    ensures r.status == SuccessStatus <==> r.processNames != []
    ensures r.processNames != [] <==>
              src.Deserialized? && src.config.Some? && src.config.value.debuggableProcessNames.Some?
              && src.config.value.debuggableProcessNames.value != []
    ensures r.processNames != [] ==> r.processNames == src.config.value.debuggableProcessNames.value
    ensures r.processNames == [] ==> |r.status| >= |FailurePrefix| && r.status[..|FailurePrefix|] == FailurePrefix
    ensures src.Unreadable? ==> r.status == FailurePrefix + src.message
    ensures r.processNames == [] ==> Failure(src).Some? && r.status == FailurePrefix + Failure(src).value
  {
    match Failure(src)
    case None => Loaded(src.config.value.debuggableProcessNames.value, SuccessStatus)
    case Some(m) =>
      assert FailurePrefix + m != SuccessStatus by {
        assert |SuccessStatus| < |FailurePrefix|;
      }
      Loaded(DefaultConfig.debuggableProcessNames.value, FailurePrefix + m)
  }

  /** Where the code as written does return a name array, the corrected loader agrees with it. */
  lemma GetConfigAgreesWhereDefined(src: ConfigSource)
    requires GetConfigAsWritten(src).0.Some? && GetConfigAsWritten(src).0.value.debuggableProcessNames.Some?
    ensures GetConfig(src).processNames == GetConfigAsWritten(src).0.value.debuggableProcessNames.value
    ensures GetConfig(src).status == GetConfigAsWritten(src).1
  {
  }
}
