/** What both climate platform variants share: the configuration they are set
    up from, its defaults, the fallback for the customized lists, and the
    off/idle test on operation modes. */
module ClimateCommon {
  import opened Wrappers
  import opened Text

  const StateOff: string := "off"
  const StateIdle: string := "idle"
  const StateHeat: string := "heat"
  const StateCool: string := "cool"
  const StateAuto: string := "auto"

  const DefaultName: string := "Harmony Hub Climate"
  const DefaultMinTemp: int := 16
  const DefaultMaxTemp: int := 30
  const DefaultTargetTemp: int := 20
  const DefaultTargetTempStep: int := 1
  const DefaultOperationList: seq<string> := [StateOff, StateHeat, StateCool, StateAuto]
  const DefaultFanModeList: seq<string> := ["low", "mid", "high", "auto"]
  const DefaultOperation: string := "off"
  const DefaultFanMode: string := "auto"

  /** The validated platform configuration. `customOperations` and
      `customFanModes` are the optional lists of the `customize` block. */
  datatype PlatformConfig = PlatformConfig(
    name: string,
    deviceId: string,
    minTemp: int,
    maxTemp: int,
    targetTemp: int,
    targetTempStep: int,
    customOperations: Option<seq<string>>,
    customFanModes: Option<seq<string>>,
    defaultOperation: string,
    defaultFanMode: string,
    defaultOperationFromIdle: Option<string>)

  /** The configuration of a platform entry that gives only its device id:
      every optional key takes its schema default. */
  function DefaultConfig(deviceId: string): PlatformConfig {
    PlatformConfig(DefaultName, deviceId, DefaultMinTemp, DefaultMaxTemp, DefaultTargetTemp,
                   DefaultTargetTempStep, None, None, DefaultOperation, DefaultFanMode, None)
  }

  /** `customized.get(key, []) or default`: a missing or empty customized list
      falls back to the default one; a non-empty one is used as it is. */
  function ListOrDefault(customized: Option<seq<string>>, default: seq<string>): (r: seq<string>)
    ensures customized == None || customized == Some([]) ==> r == default
    ensures customized.Some? && customized.value != [] ==> r == customized.value
    ensures default != [] ==> r != []
  {
    var given := customized.GetOr([]);
    if given != [] then given else default
  }

  /** The off/idle test of the setters and of the constructor: the lower-cased
      mode is "off" or "idle". */
  predicate IsInactive(operation: string) {
    Lower(operation) == StateOff || Lower(operation) == StateIdle
  }

  /** The command formatter tests the capitalized mode against "Off" and
      "Idle"; that is the same test as the setters' lower-case one. */
  lemma CapitalizedInactive(operation: string)
    ensures Capitalize(operation) == "Off" || Capitalize(operation) == "Idle" <==> IsInactive(operation)
  {
  }
}
