/** The names and defaults the `ApiTestHarness` construct derives from its
    stage, its id and its optional properties before it declares any resource. */
module HarnessNames {
  import opened Wrappers

  /** The Lambda runtime: the construct's default, or one the caller names. */
  datatype Runtime = NodejsLatest | Named(name: string)

  /** The construct's properties; every optional one may be absent. */
  datatype Props = Props(
    stage: string,
    loggerEnabled: string,
    logEvent: Option<string>,
    logLevel: Option<string>,
    logSampleRate: Option<string>,
    traceEnabled: Option<string>,
    lambdaRuntime: Option<Runtime>,
    lambdaMemorySize: Option<int>,
    resourceNamePrefix: Option<string>,
    captureTrace: Option<string>,
    entryPathOverride: Option<string>)

  const DefaultNamePrefix := "api-test-harness"
  const DefaultLogLevel := "DEBUG"
  const DefaultLogEvent := "true"
  const DefaultSampleRate := "1"
  const DefaultTraceEnabled := "true"
  const DefaultCaptureTrace := "true"
  const DefaultEntry := "./adapters/primary/api-test-harness-adapter.js"
  const DefaultMemorySize := 1024

  /** `value || fallback` for an optional string: JavaScript takes the fallback
      both when the value is absent and when it is the empty string. */
  function OrDefault(value: Option<string>, fallback: string): (r: string)
    ensures value.Some? && value.value != "" ==> r == value.value
    ensures value.None? || value == Some("") ==> r == fallback
    ensures fallback != "" ==> r != ""
  {
    if value.Some? && value.value != "" then value.value else fallback
  }

  /** `value || fallback` for an optional number: an absent value and 0 both
      take the fallback. */
  function NumberOrDefault(value: Option<int>, fallback: int): (r: int)
    ensures value.Some? && value.value != 0 ==> r == value.value
    ensures value.None? || value == Some(0) ==> r == fallback
    ensures fallback != 0 ==> r != 0
  {
    if value.Some? && value.value != 0 then value.value else fallback
  }

  /** The resource names of one construct. */
  datatype Names = Names(
    nameSuffix: string,
    namePrefix: string,
    tableName: string,
    functionName: string,
    ssmUrlParamName: string,
    ssmKeyParamName: string)

  /** The names built from the stage, the construct id and the optional prefix. */
  function DeriveNames(stage: string, id: string, resourceNamePrefix: Option<string>): Names {
    var nameSuffix := stage + "-" + id;
    var namePrefix := OrDefault(resourceNamePrefix, DefaultNamePrefix);
    Names(
      nameSuffix,
      namePrefix,
      namePrefix + "-table-" + nameSuffix,
      namePrefix + "-" + nameSuffix,
      "/" + stage + "/" + namePrefix + "-url-" + id,
      "/" + stage + "/" + namePrefix + "-api-key-" + id)
  }

  /** The logging and tracing environment of the function (`lambdaConfig`). */
  datatype LambdaConfig = LambdaConfig(
    logLevel: string,
    logEvent: string,
    sampleRate: string,
    traceEnabled: string,
    captureHttpsRequests: string,
    serviceName: string,
    captureResponse: string,
    metricsNamespace: string)

  /** Everything the construct derives: names, environment, and the runtime,
      entry path (relative to the package's directory) and memory size. */
  datatype Derived = Derived(
    names: Names,
    lambdaConfig: LambdaConfig,
    runtime: Runtime,
    entry: string,
    memorySize: int)

  function Derive(id: string, props: Props): Derived {
    var names := DeriveNames(props.stage, id, props.resourceNamePrefix);
    var lambdaConfig := LambdaConfig(
      OrDefault(props.logLevel, DefaultLogLevel),
      OrDefault(props.logEvent, DefaultLogEvent),
      OrDefault(props.logSampleRate, DefaultSampleRate),
      OrDefault(props.traceEnabled, DefaultTraceEnabled),
      "true",
      names.namePrefix + "-service-" + names.nameSuffix,
      OrDefault(props.captureTrace, DefaultCaptureTrace),
      names.namePrefix + "-" + names.nameSuffix);
    Derived(
      names,
      lambdaConfig,
      if props.lambdaRuntime.Some? then props.lambdaRuntime.value else NodejsLatest,
      OrDefault(props.entryPathOverride, DefaultEntry),
      NumberOrDefault(props.lambdaMemorySize, DefaultMemorySize))
  }

  // ---------------------------------------------------------------------------
  // Properties of the derivation
  // ---------------------------------------------------------------------------

  /** The properties of the construct `Harness` at stage `dev`: no optional
      property but an entry override. */
  function DefaultProps(): Props {
    Props("dev", "true", None, None, None, None, None, None, None, None,
          Some("./adapters/primary/api-test-harness-adapter.ts"))
  }

  /** That construct gets the default prefix in its table and function names. */
  lemma DefaultConstructNames()
    ensures var n := DeriveNames("dev", "Harness", None);
            && n.tableName == "api-test-harness-table-dev-Harness"
            && n.functionName == "api-test-harness-dev-Harness"
  {
    var n := DeriveNames("dev", "Harness", None);
    assert n.tableName == "api-test-harness" + "-table-" + ("dev" + "-" + "Harness");
    assert n.functionName == "api-test-harness" + "-" + ("dev" + "-" + "Harness");
  }

  /** That construct's URL parameter is under `/dev/`, with the default prefix. */
  lemma DefaultConstructUrlParameter()
    ensures DeriveNames("dev", "Harness", None).ssmUrlParamName == "/dev/api-test-harness-url-Harness"
  {
    assert DeriveNames("dev", "Harness", None).ssmUrlParamName == "/" + "dev" + "/" + "api-test-harness" + "-url-" + "Harness";
    UrlParameterSpelled();
  }

  lemma UrlParameterSpelled()
    ensures "/" + "dev" + "/" + "api-test-harness" + "-url-" + "Harness" == "/dev/api-test-harness-url-Harness"
  {
  }

  /** That construct's API-key parameter is under `/dev/`, with the default prefix. */
  lemma DefaultConstructKeyParameter()
    ensures DeriveNames("dev", "Harness", None).ssmKeyParamName == "/dev/api-test-harness-api-key-Harness"
  {
    assert DeriveNames("dev", "Harness", None).ssmKeyParamName == "/" + "dev" + "/" + "api-test-harness" + "-api-key-" + "Harness";
    KeyParameterSpelled();
  }

  lemma KeyParameterSpelled()
    ensures "/" + "dev" + "/" + "api-test-harness" + "-api-key-" + "Harness" == "/dev/api-test-harness-api-key-Harness"
  {
  }

  /** That construct gets every default setting. */
  lemma DefaultConstructSettings()
    ensures var d := Derive("Harness", DefaultProps());
            && d.lambdaConfig.logLevel == "DEBUG"
            && d.lambdaConfig.logEvent == "true"
            && d.lambdaConfig.sampleRate == "1"
            && d.lambdaConfig.traceEnabled == "true"
            && d.lambdaConfig.captureHttpsRequests == "true"
            && d.lambdaConfig.captureResponse == "true"
            && d.runtime == NodejsLatest
            && d.entry == "./adapters/primary/api-test-harness-adapter.ts"
            && d.memorySize == 1024
  {
  }

  /** That construct's service name and metrics namespace carry the default
      prefix and the stage and id. */
  lemma DefaultConstructServiceNames()
    ensures var c := Derive("Harness", DefaultProps()).lambdaConfig;
            && c.serviceName == "api-test-harness-service-dev-Harness"
            && c.metricsNamespace == "api-test-harness-dev-Harness"
  {
    var c := Derive("Harness", DefaultProps()).lambdaConfig;
    assert c.serviceName == "api-test-harness" + "-service-" + ("dev" + "-" + "Harness");
    assert c.metricsNamespace == "api-test-harness" + "-" + ("dev" + "-" + "Harness");
  }

  /** The properties of the construct `HarnessWithOptions` at stage `test`,
      with its optional properties set. */
  function OptionsProps(): Props {
    Props("test", "false", None, Some("INFO"), Some("0.5"), None, Some(Named("nodejs18.x")),
          Some(2048), Some("custom-prefix"), None,
          Some("./adapters/primary/api-test-harness-adapter.ts"))
  }

  /** That construct's table name takes the custom prefix. */
  lemma ConstructWithOptionsNames()
    ensures DeriveNames("test", "HarnessWithOptions", Some("custom-prefix")).tableName
              == "custom-prefix-table-test-HarnessWithOptions"
  {
    var n := DeriveNames("test", "HarnessWithOptions", Some("custom-prefix"));
    assert n.tableName == "custom-prefix" + "-table-" + ("test" + "-" + "HarnessWithOptions");
    OptionsTableSpelled();
  }

  lemma OptionsTableSpelled()
    ensures "custom-prefix" + "-table-" + ("test" + "-" + "HarnessWithOptions") == "custom-prefix-table-test-HarnessWithOptions"
  {
  }

  /** That construct's settings take the options over the defaults; the log
      event it leaves unset keeps its default. */
  lemma ConstructWithOptionsSettings()
    ensures var d := Derive("HarnessWithOptions", OptionsProps());
            && d.lambdaConfig.logLevel == "INFO"
            && d.lambdaConfig.sampleRate == "0.5"
            && d.lambdaConfig.logEvent == "true"
            && d.runtime == Named("nodejs18.x")
            && d.memorySize == 2048
  {
    assert OrDefault(Some("INFO"), DefaultLogLevel) == "INFO";
    assert OrDefault(Some("0.5"), DefaultSampleRate) == "0.5";
  }

  /** No derived setting is ever empty, whatever the caller passes: an empty
      string falls back to the default, as does a memory size of 0. */
  lemma SettingsNeverEmpty(id: string, props: Props)
    ensures var d := Derive(id, props);
            && d.names.namePrefix != ""
            && d.lambdaConfig.logLevel != ""
            && d.lambdaConfig.logEvent != ""
            && d.lambdaConfig.sampleRate != ""
            && d.lambdaConfig.traceEnabled != ""
            && d.lambdaConfig.captureResponse != ""
            && d.entry != ""
            && d.memorySize != 0
  {
  }

  /** The two parameter names differ, and so do the table and function names;
      the metrics namespace is the function name. */
  lemma NamesDistinct(stage: string, id: string, resourceNamePrefix: Option<string>)
    ensures var n := DeriveNames(stage, id, resourceNamePrefix);
            && n.tableName != n.functionName
            && n.ssmUrlParamName != n.ssmKeyParamName
  {
    var n := DeriveNames(stage, id, resourceNamePrefix);
    assert |n.tableName| == |n.functionName| + 6;
    assert |n.ssmKeyParamName| == |n.ssmUrlParamName| + 4;
  }

  /** For a given prefix the table name determines `stage + "-" + id`. */
  lemma {:induction false} TableNameDeterminesSuffix(stage1: string, id1: string, stage2: string, id2: string,
                                                     resourceNamePrefix: Option<string>)
    requires DeriveNames(stage1, id1, resourceNamePrefix).tableName == DeriveNames(stage2, id2, resourceNamePrefix).tableName
    ensures DeriveNames(stage1, id1, resourceNamePrefix).nameSuffix == DeriveNames(stage2, id2, resourceNamePrefix).nameSuffix
  {
    var n1 := DeriveNames(stage1, id1, resourceNamePrefix);
    var n2 := DeriveNames(stage2, id2, resourceNamePrefix);
    var head := n1.namePrefix + "-table-";
    assert n1.tableName == head + n1.nameSuffix;
    assert n2.tableName == head + n2.nameSuffix;
    assert n1.tableName[|head|..] == n1.nameSuffix;
    assert n2.tableName[|head|..] == n2.nameSuffix;
  }

  /** The stage and the id are joined with a `-` that either may contain, so two
      different constructs can share a table name and a function name (and,
      since the API key is derived from the same suffix, the key). Their
      parameter names still differ. */
  lemma SuffixCollision()
    ensures var n1 := DeriveNames("dev-a", "b", None);
            var n2 := DeriveNames("dev", "a-b", None);
            && n1.tableName == n2.tableName
            && n1.functionName == n2.functionName
            && n1.ssmUrlParamName != n2.ssmUrlParamName
  {
    var n1 := DeriveNames("dev-a", "b", None);
    var n2 := DeriveNames("dev", "a-b", None);
    assert n1.ssmUrlParamName[4] == '-' && n2.ssmUrlParamName[4] == '/';
  }
}
