/**
 * The interceptor hook that adds a Snowflake-specific check to the response
 * of Kafka Connect's config validation: Snowpipe Streaming ingestion only
 * works with the string value converter.
 */
module SnowflakeHook {
  import opened Wrappers

  const IngestionMethodName := "snowflake.ingestion.method"
  const ValueConverterName := "value.converter"
  const SnowpipeStreaming := "snowpipe_streaming"
  const StringConverter := "org.apache.kafka.connect.storage.StringConverter"
  const StringConverterRequired := "For SNOWPIPE_STREAMING only STRING converter can be used"

  /** The value part of a config entry: its name, its current value and the errors attached to it. */
  datatype ConfigValue = ConfigValue(name: string, value: string, errors: seq<string>)

  /** One config entry; the definition part, which the hook never reads, is a type parameter. */
  datatype ConfigDefinition<D> = ConfigDefinition(definition: D, value: ConfigValue)

  /**
   * A validation response. Its config list is an array, because a Go slice
   * copied with the response still shares the entries with the caller.
   */
  datatype ValidationResponse<D> = ValidationResponse(configs: array<ConfigDefinition<D>>)

  /** Attaches error messages to a config entry, keeping those already there. */
  function AddValueErrors<D>(c: ConfigDefinition<D>, errs: seq<string>): (r: ConfigDefinition<D>)
    ensures r.definition == c.definition
    ensures r.value.name == c.value.name && r.value.value == c.value.value
    ensures |r.value.errors| == |c.value.errors| + |errs|
    ensures r.value.errors[..|c.value.errors|] == c.value.errors
    ensures r.value.errors[|c.value.errors|..] == errs
  {
    c.(value := c.value.(errors := c.value.errors + errs))
  }

  /** The index of the first config at or after position i whose name is the given one. */
  function FindConfigFrom<D>(configs: seq<ConfigDefinition<D>>, name: string, i: nat): (r: Option<nat>)
    decreases |configs| - i
    ensures r.None? <==> forall k | i <= k < |configs| :: configs[k].value.name != name
    ensures r.Some? ==> i <= r.value < |configs| && configs[r.value].value.name == name
    ensures r.Some? ==> forall k | i <= k < r.value :: configs[k].value.name != name
  {
    if i >= |configs| then None
    else if configs[i].value.name == name then Some(i)
    else FindConfigFrom(configs, name, i + 1)
  }

  /** The index of the first config with the given name, or None when there is none. */
  function FindConfig<D>(configs: seq<ConfigDefinition<D>>, name: string): (r: Option<nat>)
    ensures r.None? <==> forall k | 0 <= k < |configs| :: configs[k].value.name != name
    ensures r.Some? ==> r.value < |configs| && configs[r.value].value.name == name
    ensures r.Some? ==> forall k | 0 <= k < r.value :: configs[k].value.name != name
  {
    FindConfigFrom(configs, name, 0)
  }

  /** The linear search for a config by name; the index stands for the pointer into the slice. */
  method GetConfig<D>(response: ValidationResponse<D>, name: string) returns (r: Option<nat>)
    ensures r == FindConfig(response.configs[..], name)
  {
    var configs := response.configs;
    var i := 0;
    while i < configs.Length
      invariant 0 <= i <= configs.Length
      invariant FindConfigFrom(configs[..], name, i) == FindConfig(configs[..], name)
    {
      if configs[i].value.name == name {
        return Some(i);
      }
      i := i + 1;
    }
    return None;
  }

  /** Whether the hook attaches its error: streaming ingestion with a converter other than the string one. */
  predicate RejectsConverter<D>(configs: seq<ConfigDefinition<D>>) {
    var ingestion := FindConfig(configs, IngestionMethodName);
    var converter := FindConfig(configs, ValueConverterName);
    && ingestion.Some? && converter.Some?
    && configs[ingestion.value].value.value == SnowpipeStreaming
    && configs[converter.value].value.value != StringConverter
  }

  /** The config list after the hook. */
  function HookedConfigs<D>(configs: seq<ConfigDefinition<D>>): (r: seq<ConfigDefinition<D>>)
    ensures |r| == |configs|
    ensures !RejectsConverter(configs) ==> r == configs
    ensures RejectsConverter(configs) ==>
              var j := FindConfig(configs, ValueConverterName).value;
              && r[j] == AddValueErrors(configs[j], [StringConverterRequired])
              && forall k | 0 <= k < |r| && k != j :: r[k] == configs[k]
  {
    match FindConfig(configs, IngestionMethodName)
    case None => configs
    case Some(i) =>
      match FindConfig(configs, ValueConverterName)
      case None => configs
      case Some(j) =>
        if configs[i].value.value == SnowpipeStreaming && configs[j].value.value != StringConverter
        then configs[j := AddValueErrors(configs[j], [StringConverterRequired])]
        else configs
  }

  /** The hook: it edits the converter entry in place and returns the response it was given. */
  method KafkaConnectToConsoleSnowflakeHook<D>(response: ValidationResponse<D>) returns (r: ValidationResponse<D>)
    modifies response.configs
    ensures r == response
    ensures response.configs[..] == HookedConfigs(old(response.configs[..]))
  {
    var ingestion := GetConfig(response, IngestionMethodName);
    if ingestion.None? {
      return response;
    }
    var converter := GetConfig(response, ValueConverterName);
    if converter.None? {
      return response;
    }
    var i, j := ingestion.value, converter.value;
    if response.configs[i].value.value == SnowpipeStreaming && response.configs[j].value.value != StringConverter {
      response.configs[j] := AddValueErrors(response.configs[j], [StringConverterRequired]);
    }
    return response;
  }

  /** Without an ingestion-method entry the configs are returned untouched. */
  lemma NoIngestionMethodUnchanged<D>(configs: seq<ConfigDefinition<D>>)
    requires forall k | 0 <= k < |configs| :: configs[k].value.name != IngestionMethodName
    ensures HookedConfigs(configs) == configs
  {
  }

  /** Without a value-converter entry the configs are returned untouched. */
  lemma NoValueConverterUnchanged<D>(configs: seq<ConfigDefinition<D>>)
    requires forall k | 0 <= k < |configs| :: configs[k].value.name != ValueConverterName
    ensures HookedConfigs(configs) == configs
  {
  }

  /**
   * The error is attached exactly when the first ingestion-method entry asks
   * for Snowpipe Streaming and the first value-converter entry is not the
   * string converter; only that entry changes, and only by the one error.
   */
  lemma ErrorAttachedIff<D>(configs: seq<ConfigDefinition<D>>, i: nat, j: nat)
    requires i < |configs| && configs[i].value.name == IngestionMethodName
    requires forall k | 0 <= k < i :: configs[k].value.name != IngestionMethodName
    requires j < |configs| && configs[j].value.name == ValueConverterName
    requires forall k | 0 <= k < j :: configs[k].value.name != ValueConverterName
    ensures HookedConfigs(configs)[j].value.errors ==
              if configs[i].value.value == SnowpipeStreaming && configs[j].value.value != StringConverter
              then configs[j].value.errors + [StringConverterRequired]
              else configs[j].value.errors
    ensures forall k | 0 <= k < |configs| && k != j :: HookedConfigs(configs)[k] == configs[k]
  {
    assert FindConfig(configs, IngestionMethodName) == Some(i);
    assert FindConfig(configs, ValueConverterName) == Some(j);
  }
}
