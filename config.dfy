/**
 * The generator's configuration (`config` and `newConfig` in src/main.go):
 * the defaults filled in after parsing and the address the HTTP server
 * listens on. Reading the file and decoding its YAML are represented by a map
 * from file names to the settings they decode to.
 */
module Config {
  import opened Wrappers
  import opened Text
  import opened Labels
  import opened Metrics
  import opened Registry

  /** `time.Second`, in nanoseconds. */
  const Second: int := 1_000_000_000

  const DefaultConfigFile: string := "./default_config.yml"
  const DefaultImportUrl: string := "http://localhost:8428/api/v1/import/prometheus"
  const DefaultPort: int := 8080
  const DefaultPushInterval: int := 10 * Second

  /** The fields of `config` that the YAML document fills; `pushInterval` is in nanoseconds. */
  datatype Settings = Settings(
    vmImportUrl: string,
    host: string,
    port: int,
    defaultLabels: Labels,
    metrics: seq<Metric>,
    pushInterval: int)

  /** The file `newConfig` reads: the given name, or the default file when none is given. */
  function ConfigFileName(fileName: string): (name: string)
    ensures name != ""
    ensures fileName == "" ==> name == "./default_config.yml"
    ensures fileName != "" ==> name == fileName
  {
    if fileName == "" then DefaultConfigFile else fileName
  }

  /**
   * The defaults `newConfig` applies after parsing: an empty import URL, a
   * zero port and a zero push interval are replaced, and every field that was
   * set is kept.
   */
  function WithDefaults(s: Settings): (d: Settings)
    ensures d.vmImportUrl != "" && d.port != 0 && d.pushInterval != 0
    ensures s.vmImportUrl == "" ==> d.vmImportUrl == "http://localhost:8428/api/v1/import/prometheus"
    ensures s.vmImportUrl != "" ==> d.vmImportUrl == s.vmImportUrl
    ensures s.port == 0 ==> d.port == 8080
    ensures s.port != 0 ==> d.port == s.port
    ensures s.pushInterval == 0 ==> d.pushInterval == 10 * Second && Second == 1_000_000_000
    ensures s.pushInterval != 0 ==> d.pushInterval == s.pushInterval
    ensures d.host == s.host && d.defaultLabels == s.defaultLabels && d.metrics == s.metrics
  {
    s.(vmImportUrl := if s.vmImportUrl == "" then DefaultImportUrl else s.vmImportUrl,
       port := if s.port == 0 then DefaultPort else s.port,
       pushInterval := if s.pushInterval == 0 then DefaultPushInterval else s.pushInterval)
  }

  /** Applying the defaults a second time changes nothing. */
  lemma WithDefaultsIdempotent(s: Settings)
    ensures WithDefaults(WithDefaults(s)) == WithDefaults(s)
  {
  }

  /** Settings are left alone by the defaults exactly when none of the defaulted fields is empty or zero. */
  lemma WithDefaultsFixedPoint(s: Settings)
    ensures WithDefaults(s) == s <==> s.vmImportUrl != "" && s.port != 0 && s.pushInterval != 0
  {
    if WithDefaults(s) == s {
      assert DefaultImportUrl != "";
    }
  }

  /** A `config` after parsing: the decoded settings and the metric set that `newConfig` attaches. */
  class Config {
    var vmImportUrl: string
    var host: string
    var port: int
    var defaultLabels: Labels
    var metrics: seq<Metric>
    var pushInterval: int
    var metricSet: Registry

    function Values(): Settings
      reads this
    {
      Settings(vmImportUrl, host, port, defaultLabels, metrics, pushInterval)
    }

    /** The decoded document, with a fresh, empty metric set (`metrics.NewSet`). */
    constructor (s: Settings)
      ensures Values() == s
      ensures fresh(metricSet) && metricSet.entries == map[]
    {
      vmImportUrl, host, port := s.vmImportUrl, s.host, s.port;
      defaultLabels, metrics, pushInterval := s.defaultLabels, s.metrics, s.pushInterval;
      metricSet := new Registry();
    }

    /** The three defaulting statements of `newConfig`, applied to the fields in place. */
    method ApplyDefaults()
      modifies this
      ensures Values() == WithDefaults(old(Values()))
      ensures metricSet == old(metricSet)
    {
      if vmImportUrl == "" {
        vmImportUrl := DefaultImportUrl;
      }
      if port == 0 {
        port := DefaultPort;
      }
      if pushInterval == 0 {
        pushInterval := DefaultPushInterval;
      }
    }

    /**
     * `config.GetListenAddr`: the host, a colon and the port in decimal. Split
     * at its last colon, the address gives back the host and the port, even
     * when the host itself holds colons.
     */
    function ListenAddr(): (addr: string)
      reads this
      ensures SplitAtLast(addr, ':') == Some((host, IntDecimal(port)))
      ensures ParseDecimal(IntDecimal(port)) == Some(port)
    {
      ParseIntDecimal(port);
      SplitAtLastOf(host, ':', IntDecimal(port));
      host + ":" + IntDecimal(port)
    }
  }

  /**
   * `newConfig`. `files` maps each readable, decodable file name to the
   * settings it decodes to; a name without an entry fails to read or decode.
   * `initPush` stands for `InitPush` on the new metric set, given the import
   * URL, the push interval and the canonical default-label string, and
   * returns its error, if any.
   */
  method NewConfig(fileName: string, files: map<string, Settings>, initPush: (string, int, string) -> Option<string>)
    returns (result: Result<Config>)
    ensures ConfigFileName(fileName) !in files ==> result.Failure?
    ensures ConfigFileName(fileName) in files ==>
      var d := WithDefaults(files[ConfigFileName(fileName)]);
      (result.Success? <==> initPush(d.vmImportUrl, d.pushInterval, Canonical(d.defaultLabels)).None?)
    ensures result.Success? ==>
      && fresh(result.value)
      && fresh(result.value.metricSet)
      && result.value.Values() == WithDefaults(files[ConfigFileName(fileName)])
      && result.value.metricSet.entries == map[]
  {
    var name := fileName;
    if name == "" {
      name := DefaultConfigFile;
    }
    if name !in files {
      return Failure("cannot read or decode " + name);
    }
    var c := new Config(files[name]);
    c.ApplyDefaults();
    var labelText := Format(c.defaultLabels);
    var err := initPush(c.vmImportUrl, c.pushInterval, labelText);
    if err.Some? {
      return Failure(err.value);
    }
    return Success(c);
  }
}
