# Harmony Hub IR climate adapter, modelled in Dafny

This project models the climate entity that exposes a Harmony Hub infrared
device to the home-automation platform as a thermostat. The entity holds:

- a target temperature;
- an operation mode (off, heat, cool, auto, idle, or any other string);
- a fan mode;
- in the newer variant, the operation that turn-on brings back: the last
  mode set that was not off or idle; initially the default operation, or the
  first active entry of the operation list when the default is off or idle,
  and the inactive default itself when no entry is active.

The entity drives a device on the hub with infrared command strings. An
operation-mode change, turn-on and turn-off always send one command. A
fan-mode or temperature change sends one only while the mode is active, or,
for temperature, through the default operation from idle. Restoring the
persisted state sends nothing. "Off" is sent for an off or idle mode.
Otherwise the command is capitalized mode + capitalized fan mode + the
temperature truncated to an integer, for example heat / high / 22.7 gives
`HeatHigh22`.

The repository has two variants of the same class `HarmonyIRClimate`:

- `custom_components/harmony/climate.py` uses the asynchronous hub client.
  It recalls the last active operation for turn-on and has turn-on and
  turn-off. Module `HarmonyClimate` models it.
- `custom_components/climate/harmony.py` uses the synchronous hub client.
  Module `LegacyClimate` models it.

Shared pieces:

- `Text`: Python's `str.lower` and `str.capitalize`.
- `Numbers`: `int(...)` on a temperature and `str(...)` on an integer.
- `Platform`: the hub client, reduced to the log `sent` of (device id,
  command) pairs, and the persisted last-state attributes.
- `ClimateCommon`: the configuration, its defaults, the list fallback and
  the off/idle test.

Each variant is modelled twice:

- Pure step functions (`SetTemperatureStep`, `SetFanModeStep`,
  `SetOperationModeStep`, `TurnOnStep`, `TurnOffStep`, `RestoreStep`). Each
  maps a `Thermostat` value to the new value and the commands sent. Lemmas
  state the listed properties about them.
- A class `IrClimate` whose methods update the fields in place and call
  `Hub.SendCommand`. Each method is proved to make `Model()` equal to its
  step's new state, and to append exactly that step's commands to the hub
  log.

Three behaviours of the code worth stating:

- The temperature is truncated toward zero (`int()`), not floored.
- The setters and the restore never check a mode against the allowed
  lists.
- The state property (newer variant) always returns the current operation.

## Model

| member | source | states |
|---|---|---|
| `Text.Lower` | custom_components/harmony/climate.py:155-157 | lower-casing keeps the length and lower-cases every character |
| `Text.Capitalize` | custom_components/harmony/climate.py:182-183 | keeps the length, upper-cases the first character, lower-cases every other |
| `Text.LowerOfCapitalize` | custom_components/harmony/climate.py:182-183 | lower-casing a capitalized string equals lower-casing the original |
| `Text.CapitalizeOfLower` | custom_components/harmony/climate.py:182-183 | capitalizing depends only on the lower-cased string |
| `Text.CapitalizeEqualIffLowerEqual` | custom_components/harmony/climate.py:182-185 | two strings capitalize alike iff they lower-case alike, so the formatter's capitalized test is case-insensitive |
| `Numbers.Trunc` | custom_components/harmony/climate.py:184 | `int()` of a temperature: within one of it, rounding toward zero on both signs |
| `Numbers.NatToDecimal` | custom_components/harmony/climate.py:184 | `str()` of a natural: non-empty, all digits, a leading '0' only in "0" itself, and it reads back as the number |
| `Numbers.IntToDecimal` | custom_components/harmony/climate.py:184 | `str()` of any integer: a leading '-' iff negative, then digits with no leading zero (only "0" starts with '0'), and `DecimalValue` reads it back as that integer |
| `Numbers.IntToDecimalInjective` | custom_components/harmony/climate.py:184 | different integers are written differently |
| `ClimateCommon.ListOrDefault` | custom_components/harmony/climate.py:100-105 | a missing or empty customized list falls back to the default list; a non-empty one is used as given; the result is non-empty when the default is |
| `ClimateCommon.IsInactive` | custom_components/harmony/climate.py:309-310 | the off/idle test: the lower-cased mode is "off" or "idle" (also the constructor's test at lines 155 and 157 and the fan and operation setters' at lines 321-322 and 330-331) |
| `ClimateCommon.CapitalizedInactive` | custom_components/harmony/climate.py:309-310 | the capitalized mode is "Off" or "Idle" iff the lower-cased mode is "off" or "idle" |
| `Platform.Hub.SendCommand` | custom_components/harmony/climate.py:187-195 | one send appends exactly one (device, command) pair to the log |
| `HarmonyClimate.Command` | custom_components/harmony/climate.py:182-185 | the command is "Off" iff the mode is off/idle (any fan, any temperature); otherwise it is capitalized mode + capitalized fan + str(int(temperature)) |
| `HarmonyClimate.CommandDistinguishesTemperatures` | custom_components/harmony/climate.py:184-185 | with an active mode and a fixed fan mode, two temperatures give the same command iff they truncate to the same integer |
| `HarmonyClimate.CommandExamples` | custom_components/harmony/climate.py:182-185 | heat/high/22.7 gives "HeatHigh22"; "IDLE" gives "Off" |
| `HarmonyClimate.FirstActive` | custom_components/harmony/climate.py:156-159 | the constructor's scan: the first entry of the operation list that is not off/idle, or none; its properties are `FirstActiveAt`, `FirstActiveNone` and `FirstActiveIsActive` |
| `HarmonyClimate.InitialLastOperation` | custom_components/harmony/climate.py:151-159 | the recalled operation the constructor starts with: an active default, else the scan's result, else the default; its properties are `InitialLastOperationCases` and `InitialLastOperationActive` |
| `HarmonyClimate.SetTemperatureStep` | custom_components/harmony/climate.py:304-315 | the temperature setter as a state transition with the commands it sends; `SetTemperatureSends` states its three branches |
| `HarmonyClimate.SetFanModeStep` | custom_components/harmony/climate.py:317-325 | the fan-mode setter as a state transition; `SetFanModeSends` states it |
| `HarmonyClimate.SetOperationModeStep` | custom_components/harmony/climate.py:327-335 | the operation-mode setter: the mode is stored, an active one is recalled, one command is sent; `SetOperationModeSends` states it |
| `HarmonyClimate.TurnOnStep` | custom_components/harmony/climate.py:337-339 | turn-on is the operation-mode setter with the recalled operation; `TurnOnAfterTurnOff` and `TurnOnSendsActiveCommand` state it |
| `HarmonyClimate.TurnOffStep` | custom_components/harmony/climate.py:341-343 | turn-off is the operation-mode setter with "off"; `TurnOnAfterTurnOff` states it |
| `HarmonyClimate.RestoreStep` | custom_components/harmony/climate.py:345-354 | the restore reads temperature, operation mode and fan mode in that order and stops at the first missing one; `RestoreOverwrites` states it |
| `HarmonyClimate.FirstActiveAt` | custom_components/harmony/climate.py:156-159 | the scan returns the entry at index k when every entry before k is off/idle and entry k is not |
| `HarmonyClimate.FirstActiveNone` | custom_components/harmony/climate.py:156-159 | the scan finds nothing iff every entry is off/idle |
| `HarmonyClimate.FirstActiveIsActive` | custom_components/harmony/climate.py:157-158 | what the scan finds is never off/idle |
| `HarmonyClimate.InitialLastOperationCases` | custom_components/harmony/climate.py:151-159 | the initial last operation is an active default; else the first active list entry; else the default |
| `HarmonyClimate.InitialLastOperationActive` | custom_components/harmony/climate.py:151-159 | the initial last operation is active iff the default or some list entry is active |
| `HarmonyClimate.InitialCommandCarriesConfiguredTemperature` | custom_components/harmony/climate.py:72-73 | with an active default operation, the entity's initial command carries the configured whole-number target temperature exactly as written |
| `HarmonyClimate.DefaultConfigRecallsHeat` | custom_components/harmony/climate.py:51-53 | with the default configuration (default operation "off", no customized list, so the default list) the recalled operation is "heat" |
| `HarmonyClimate.SetTemperatureSends` | custom_components/harmony/climate.py:304-315 | absent value: no change, no send; else target updated, one send with the new temperature if active, else exactly the operation setter's effect with the default-from-idle mode, else no send |
| `HarmonyClimate.SetFanModeSends` | custom_components/harmony/climate.py:317-325 | fan stored, nothing else changes, one send iff the operation is active, carrying the new fan mode |
| `HarmonyClimate.SetOperationModeSends` | custom_components/harmony/climate.py:327-335 | mode stored, exactly one send, "Off" iff the mode is off/idle; last operation becomes the mode iff it is active, else is kept |
| `HarmonyClimate.TurnOnAfterTurnOff` | custom_components/harmony/climate.py:337-343 | turn-off sends "Off" and changes only the operation; a turn-on after it selects the recalled operation and sends its command |
| `HarmonyClimate.TurnOnSendsActiveCommand` | custom_components/harmony/climate.py:337-339 | with an active recalled operation, turn-on sends exactly one command and it is not "Off" |
| `HarmonyClimate.SettersDriveHub` | custom_components/harmony/climate.py:304-343 | every setter sends at most one command, the command of the new state; when it sends none, the state's command is unchanged |
| `HarmonyClimate.RecalledOperationStaysActive` | custom_components/harmony/climate.py:330-332 | no setter makes an active recalled operation inactive |
| `HarmonyClimate.SettersKeepRecall` | custom_components/harmony/climate.py:327-343 | the constructor ensures that an active current operation is the recalled one; every setter keeps this |
| `HarmonyClimate.TurnOffThenOnRestores` | custom_components/harmony/climate.py:337-343 | while that holds, turning an active entity off then on restores exactly the prior state and re-sends its command |
| `HarmonyClimate.RestoreDoesNotRecall` | custom_components/harmony/climate.py:351-354 | restoring "cool" over a state that recalls "heat", then off and on, brings back "heat" |
| `HarmonyClimate.RestoreOverwrites` | custom_components/harmony/climate.py:345-354 | absent snapshot: no change; complete one: exactly target, operation and fan overwritten; a missing attribute raises, and the state is then exactly the original with the attributes read before it overwritten (none, the target, or target and operation); the last operation is never touched |
| `HarmonyClimate.RestoreExample` | custom_components/harmony/climate.py:351-354 | snapshot 23 / "cool" / "low" yields exactly those values without error |
| `HarmonyClimate.IrClimate.constructor` | custom_components/harmony/climate.py:133-174 | fields from the arguments; state equals the initial state with the scanned last operation; current temperature seeded from the sensor reading or 0 |
| `HarmonyClimate.IrClimate.SendIr` | custom_components/harmony/climate.py:177-195 | appends exactly (device id, command of the current state) to the hub log |
| `HarmonyClimate.IrClimate.TemperatureSensorChanged` | custom_components/harmony/climate.py:197-217 | a present reading becomes the current temperature; an absent one changes nothing; the thermostat state is untouched |
| `HarmonyClimate.IrClimate.State` | custom_components/harmony/climate.py:237-242 | the reported state is the current operation |
| `HarmonyClimate.IrClimate.SetTemperature` | custom_components/harmony/climate.py:304-315 | new fields and hub log are exactly those of `SetTemperatureStep` |
| `HarmonyClimate.IrClimate.SetFanMode` | custom_components/harmony/climate.py:317-325 | new fields and hub log are exactly those of `SetFanModeStep` |
| `HarmonyClimate.IrClimate.SetOperationMode` | custom_components/harmony/climate.py:327-335 | new fields and hub log are exactly those of `SetOperationModeStep` |
| `HarmonyClimate.IrClimate.TurnOn` | custom_components/harmony/climate.py:337-339 | new fields and hub log are exactly those of `TurnOnStep` |
| `HarmonyClimate.IrClimate.TurnOff` | custom_components/harmony/climate.py:341-343 | new fields and hub log are exactly those of `TurnOffStep` |
| `HarmonyClimate.IrClimate.Restore` | custom_components/harmony/climate.py:345-354 | new fields and key-error flag are exactly those of `RestoreStep`; nothing is sent |
| `HarmonyClimate.SetupPlatform` | custom_components/harmony/climate.py:88-129 | no entity without a hub client; otherwise a fresh entity with the configured name, device id, bounds and step, the fallback lists, the seeded current temperature and the configured initial state |
| `LegacyClimate.Command` | custom_components/climate/harmony.py:135-145 | "Off" iff the capitalized mode is "Off" or "Idle"; otherwise capitalized mode + capitalized fan + truncated temperature |
| `LegacyClimate.CommandAgrees` | custom_components/climate/harmony.py:140-145 | this variant's if/elif command equals the newer variant's command for every input |
| `LegacyClimate.SetTemperatureStep` | custom_components/climate/harmony.py:243-254 | the temperature setter as a state transition with the commands it sends; `SetTemperatureSends` states its three branches |
| `LegacyClimate.SetFanModeStep` | custom_components/climate/harmony.py:256-263 | the fan-mode setter as a state transition; `SetFanModeSends` states it |
| `LegacyClimate.SetOperationModeStep` | custom_components/climate/harmony.py:265-270 | the operation-mode setter: the mode is stored and one command is sent; `SetOperationModeSends` states it |
| `LegacyClimate.RestoreStep` | custom_components/climate/harmony.py:272-281 | the restore in source order, stopping at the first missing attribute; `RestoreOverwrites` states it |
| `LegacyClimate.SetTemperatureSends` | custom_components/climate/harmony.py:243-254 | absent value: no effect; else target updated and one send if active, else one send after switching to the default-from-idle mode, else none |
| `LegacyClimate.SetFanModeSends` | custom_components/climate/harmony.py:256-263 | fan stored, operation and target kept, one send iff the operation is active |
| `LegacyClimate.SetOperationModeSends` | custom_components/climate/harmony.py:265-270 | mode stored, exactly one send, "Off" iff the mode is off/idle |
| `LegacyClimate.SettersDriveHub` | custom_components/climate/harmony.py:243-270 | each setter sends at most one command, the new state's; sending none leaves the state's command unchanged |
| `LegacyClimate.RestoreOverwrites` | custom_components/climate/harmony.py:272-281 | absent snapshot: no change; complete one: exactly target, operation and fan; a missing attribute raises, and the state is then exactly the original with the attributes read before it overwritten (none, the target, or target and operation) |
| `LegacyClimate.MatchesHarmonyClimate` | custom_components/climate/harmony.py:243-270 | each setter of this variant equals the newer variant's once the recalled operation is dropped, with the same commands |
| `LegacyClimate.RestoreMatches` | custom_components/climate/harmony.py:276-281 | the restore of both variants agrees once the recalled operation is dropped |
| `LegacyClimate.IrClimate.constructor` | custom_components/climate/harmony.py:99-132 | fields from the arguments, state from the defaults, current temperature seeded from the sensor reading or 0 |
| `LegacyClimate.IrClimate.SendIr` | custom_components/climate/harmony.py:135-147 | appends exactly (device id, command of the current state) to the hub log |
| `LegacyClimate.IrClimate.TemperatureSensorChanged` | custom_components/climate/harmony.py:149-168 | a present reading becomes the current temperature; an absent one changes nothing |
| `LegacyClimate.IrClimate.SetTemperature` | custom_components/climate/harmony.py:243-254 | new fields and hub log are exactly those of `SetTemperatureStep` |
| `LegacyClimate.IrClimate.SetFanMode` | custom_components/climate/harmony.py:256-263 | new fields and hub log are exactly those of `SetFanModeStep` |
| `LegacyClimate.IrClimate.SetOperationMode` | custom_components/climate/harmony.py:265-270 | new fields and hub log are exactly those of `SetOperationModeStep` |
| `LegacyClimate.IrClimate.Restore` | custom_components/climate/harmony.py:272-281 | new fields and key-error flag are exactly those of `RestoreStep`; nothing is sent |
| `LegacyClimate.SetupPlatform` | custom_components/climate/harmony.py:67-95 | a fresh entity with the configured name, device id, bounds and step, the fallback lists, the seeded current temperature and the configured initial state |

## Left out

- The hub clients (`aioharmony`, `pyharmony`) are foreign network I/O: connecting, `SendCommandDevice`, and a send that fails or raises. The model keeps only the `Hub` log.
- The voluptuous configuration schemas are library validation. `PlatformConfig` is the already-validated result, and `DefaultConfig` repeats the schema defaults.
- Host-platform plumbing is not modelled: `async_track_state_change`, `hass.states.get`, `async_update_ha_state`, `schedule_update_ha_state`, `async_get_last_state` and `super().async_added_to_hass()`. The sensor's present reading and the persisted last state are given to the model as parameters.
- Sensor parsing (`represents_float`, `float`) and unit conversion are float parsing and a foreign conversion. The model takes the reading already parsed and converted, or none. None stands for: no new state, a non-numeric state, or a conversion error.
- Async/await and logging: each call is one sequential step, and logging is dropped.
- The `supported_features` bitmask and the one-line getters (name, unit, min/max, step, lists) add nothing. The unit of measurement comes from the host configuration and is not stored.
- LegacyClimate.SetupPlatform: takes a connected hub. The source also creates the entity when the client is missing, and every later send then fails. That failure is not modelled.
- Text.Capitalize: case mapping is ASCII only. Python also maps non-ASCII letters, and title-cases the first character.
- Text.Lower: case mapping is ASCII only, as for `Capitalize`.
- ClimateCommon.CapitalizedInactive: the capitalized test of the formatter and the lower-case test of the setters agree only under ASCII case mapping. In Python `"ıdle".capitalize()` is `"Idle"` while `"ıdle".lower()` is not `"idle"`, so the setters treat that mode as active while the formatter sends "Off". `Text.CapitalizeEqualIffLowerEqual` has the same ASCII-only scope.
- HarmonyClimate.SetupPlatform: the no-client branch models `if harmony_device is None` (custom_components/harmony/climate.py:115-117). In the source that branch cannot be taken, because the client constructor returns an object or raises; the model keeps it as a nullable hub parameter, and a raising constructor is not modelled.
- Numbers.Trunc: temperatures are exact reals. Rounding of binary floats is not modelled, and neither are NaN and infinity, where `int()` raises.
