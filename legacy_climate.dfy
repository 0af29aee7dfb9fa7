/** The older climate platform built on the synchronous hub client. It has the
    same command format and setters as `HarmonyClimate`, and differs in two
    ways: it does not recall a last active operation, and it has no turn-on
    or turn-off. The step functions and the class follow the same layout as
    in `HarmonyClimate`. At the end, `MatchesHarmonyClimate` proves that this
    variant behaves as the newer one once the recalled operation is ignored. */
module LegacyClimate {
  import opened Wrappers
  import opened Text
  import opened Numbers
  import opened Platform
  import opened ClimateCommon
  import HarmonyClimate

  /** The command string, built with this variant's if / elif / else. */
  function Command(operation: string, fanMode: string, target: real): (r: string)
    ensures r == "Off" <==> IsInactive(operation)
    ensures !IsInactive(operation) ==> r == Capitalize(operation) + Capitalize(fanMode) + IntToDecimal(Trunc(target))
  {
    CapitalizedInactive(operation);
    var mode := Capitalize(operation);
    var fan := Capitalize(fanMode);
    var temp := IntToDecimal(Trunc(target));
    if mode == "Off" then "Off"
    else if mode == "Idle" then "Off"
    else
      var r := mode + fan + temp;
      assert r[|r| - 1] == temp[|temp| - 1];
      r
  }

  /** Both variants send the same command for the same state. */
  lemma CommandAgrees(operation: string, fanMode: string, target: real)
    ensures Command(operation, fanMode, target) == HarmonyClimate.Command(operation, fanMode, target)
  {
  }

  datatype Thermostat = Thermostat(target: real, operation: string, fanMode: string)

  datatype Step = Step(state: Thermostat, commands: seq<string>)

  datatype Restored = Restored(state: Thermostat, keyError: bool)

  function CommandOf(s: Thermostat): string {
    Command(s.operation, s.fanMode, s.target)
  }

  function InitialState(targetTemp: int, defaultOperation: string, defaultFanMode: string): Thermostat {
    Thermostat(targetTemp as real, defaultOperation, defaultFanMode)
  }

  function SetOperationModeStep(s: Thermostat, operationMode: string): Step {
    var next := s.(operation := operationMode);
    Step(next, [CommandOf(next)])
  }

  function SetTemperatureStep(s: Thermostat, fromIdle: Option<string>, temperature: Option<real>): Step {
    match temperature
    case None => Step(s, [])
    case Some(t) =>
      var next := s.(target := t);
      if !IsInactive(next.operation) then Step(next, [CommandOf(next)])
      else if fromIdle.Some? then SetOperationModeStep(next, fromIdle.value)
      else Step(next, [])
  }

  function SetFanModeStep(s: Thermostat, fanMode: string): Step {
    var next := s.(fanMode := fanMode);
    if !IsInactive(next.operation) then Step(next, [CommandOf(next)]) else Step(next, [])
  }

  function RestoreStep(s: Thermostat, last: Option<LastState>): Restored {
    match last
    case None => Restored(s, false)
    case Some(a) =>
      if a.temperature.None? then Restored(s, true)
      else
        var withTarget := s.(target := a.temperature.value);
        if a.operationMode.None? then Restored(withTarget, true)
        else
          var withOperation := withTarget.(operation := a.operationMode.value);
          if a.fanMode.None? then Restored(withOperation, true)
          else Restored(withOperation.(fanMode := a.fanMode.value), false)
  }

  /** Absent temperature: no effect. Otherwise the target is updated and an
      active entity sends one command carrying it; an inactive one switches
      to the default operation from idle with one send, or sends nothing. */
  lemma SetTemperatureSends(s: Thermostat, fromIdle: Option<string>, temperature: Option<real>)
    ensures temperature.None? ==> SetTemperatureStep(s, fromIdle, temperature) == Step(s, [])
    ensures var r := SetTemperatureStep(s, fromIdle, temperature);
            |r.commands| == (if temperature.Some? && (!IsInactive(s.operation) || fromIdle.Some?) then 1 else 0)
    ensures var r := SetTemperatureStep(s, fromIdle, temperature);
            temperature.Some? ==> r.state.target == temperature.value && r.state.fanMode == s.fanMode
    ensures var r := SetTemperatureStep(s, fromIdle, temperature);
            temperature.Some? && !IsInactive(s.operation) ==>
              r.state.operation == s.operation && r.commands == [Command(s.operation, s.fanMode, temperature.value)]
    ensures var r := SetTemperatureStep(s, fromIdle, temperature);
            temperature.Some? && IsInactive(s.operation) && fromIdle.Some? ==>
              r.state.operation == fromIdle.value && r.commands == [Command(fromIdle.value, s.fanMode, temperature.value)]
    ensures var r := SetTemperatureStep(s, fromIdle, temperature);
            temperature.Some? && IsInactive(s.operation) && fromIdle.None? ==>
              r.state.operation == s.operation && r.commands == []
  {
  }

  /** The fan mode is stored; one command exactly when the operation is
      active; operation and target stay. */
  lemma SetFanModeSends(s: Thermostat, fanMode: string)
    ensures SetFanModeStep(s, fanMode).state == s.(fanMode := fanMode)
    ensures |SetFanModeStep(s, fanMode).commands| == (if IsInactive(s.operation) then 0 else 1)
    ensures !IsInactive(s.operation) ==>
              SetFanModeStep(s, fanMode).commands == [Command(s.operation, fanMode, s.target)]
  {
  }

  /** The mode is stored and exactly one command is sent, "Off" exactly when
      the mode is off or idle. */
  lemma SetOperationModeSends(s: Thermostat, operationMode: string)
    ensures SetOperationModeStep(s, operationMode).state == s.(operation := operationMode)
    ensures var r := SetOperationModeStep(s, operationMode);
            |r.commands| == 1 && (r.commands[0] == "Off" <==> IsInactive(operationMode))
  {
  }

  predicate DrivesHub(before: Thermostat, r: Step) {
    (r.commands == [] && CommandOf(r.state) == CommandOf(before)) || r.commands == [CommandOf(r.state)]
  }

  /** Every setter sends at most one command, the one for the new state; when
      it sends none, the state's command is unchanged. */
  lemma SettersDriveHub(s: Thermostat, fromIdle: Option<string>, temperature: Option<real>,
                        fanMode: string, operationMode: string)
    ensures DrivesHub(s, SetTemperatureStep(s, fromIdle, temperature))
    ensures DrivesHub(s, SetFanModeStep(s, fanMode))
    ensures DrivesHub(s, SetOperationModeStep(s, operationMode))
  {
  }

  /** An absent snapshot changes nothing; a complete one overwrites exactly
      target, operation and fan mode; a missing attribute raises after the
      earlier ones were stored. */
  lemma RestoreOverwrites(s: Thermostat, last: Option<LastState>)
    ensures last.None? ==> RestoreStep(s, last) == Restored(s, false)
    ensures last.Some? && last.value.temperature.Some? && last.value.operationMode.Some? && last.value.fanMode.Some? ==>
              RestoreStep(s, last) ==
              Restored(Thermostat(last.value.temperature.value, last.value.operationMode.value,
                                  last.value.fanMode.value), false)
    ensures RestoreStep(s, last).keyError <==>
              last.Some? && (last.value.temperature.None? || last.value.operationMode.None? || last.value.fanMode.None?)
    ensures last.Some? && last.value.temperature.None? ==> RestoreStep(s, last).state == s
    ensures last.Some? && last.value.temperature.Some? && last.value.operationMode.None? ==>
              RestoreStep(s, last).state == s.(target := last.value.temperature.value)
    ensures last.Some? && last.value.temperature.Some? && last.value.operationMode.Some? && last.value.fanMode.None? ==>
              RestoreStep(s, last).state ==
              s.(target := last.value.temperature.value, operation := last.value.operationMode.value)
  {
  }

  /** The state of the newer variant without its recalled operation. */
  function Forget(s: HarmonyClimate.Thermostat): Thermostat {
    Thermostat(s.target, s.operation, s.fanMode)
  }

  function ForgetStep(r: HarmonyClimate.Step): Step {
    Step(Forget(r.state), r.commands)
  }

  /** The two variants agree: each setter and the restore of this
      variant does to the forgotten state what the newer variant's does, and
      sends the same commands. */
  lemma MatchesHarmonyClimate(s: HarmonyClimate.Thermostat, fromIdle: Option<string>, temperature: Option<real>,
                              fanMode: string, operationMode: string, last: Option<LastState>)
    ensures SetTemperatureStep(Forget(s), fromIdle, temperature) ==
            ForgetStep(HarmonyClimate.SetTemperatureStep(s, fromIdle, temperature))
    ensures SetFanModeStep(Forget(s), fanMode) == ForgetStep(HarmonyClimate.SetFanModeStep(s, fanMode))
    ensures SetOperationModeStep(Forget(s), operationMode) ==
            ForgetStep(HarmonyClimate.SetOperationModeStep(s, operationMode))
    ensures var r := HarmonyClimate.RestoreStep(s, last);
            RestoreStep(Forget(s), last) == Restored(Forget(r.state), r.keyError)
  {
    RestoreMatches(s, last);
    CommandAgrees(operationMode, s.fanMode, s.target);
    CommandAgrees(s.operation, fanMode, s.target);
    if temperature.Some? {
      CommandAgrees(s.operation, s.fanMode, temperature.value);
      if fromIdle.Some? {
        CommandAgrees(fromIdle.value, s.fanMode, temperature.value);
      }
    }
  }

  lemma RestoreMatches(s: HarmonyClimate.Thermostat, last: Option<LastState>)
    ensures var r := HarmonyClimate.RestoreStep(s, last);
            RestoreStep(Forget(s), last) == Restored(Forget(r.state), r.keyError)
  {
    match last
    case None =>
    case Some(a) =>
      if a.temperature.Some? && a.operationMode.Some? && a.fanMode.Some? {
        assert HarmonyClimate.RestoreStep(s, last).state ==
               HarmonyClimate.Thermostat(a.temperature.value, a.operationMode.value, a.fanMode.value, s.lastOperation);
      }
  }

  /** A thermostat entity of the older variant. */
  class IrClimate {
    const name: string
    const hub: Hub
    const deviceId: string
    const minTemp: int
    const maxTemp: int
    const targetTemperatureStep: int
    const operationList: seq<string>
    const fanList: seq<string>
    const defaultOperationFromIdle: Option<string>

    var targetTemperature: real
    var currentTemperature: real
    var currentOperation: string
    var currentFanMode: string

    function Model(): Thermostat
      reads this
    {
      Thermostat(targetTemperature, currentOperation, currentFanMode)
    }

    constructor (name: string, hub: Hub, deviceId: string, minTemp: int, maxTemp: int,
                 targetTemp: int, targetTempStep: int, sensorReading: Option<real>,
                 operationList: seq<string>, fanList: seq<string>,
                 defaultOperation: string, defaultFanMode: string,
                 defaultOperationFromIdle: Option<string>)
      ensures this.name == name && this.hub == hub && this.deviceId == deviceId
      ensures this.minTemp == minTemp && this.maxTemp == maxTemp && this.targetTemperatureStep == targetTempStep
      ensures this.operationList == operationList && this.fanList == fanList
      ensures this.defaultOperationFromIdle == defaultOperationFromIdle
      ensures Model() == InitialState(targetTemp, defaultOperation, defaultFanMode)
      ensures currentTemperature == sensorReading.GetOr(0.0)
    {
      this.name := name;
      this.minTemp := minTemp;
      this.maxTemp := maxTemp;
      targetTemperature := targetTemp as real;
      targetTemperatureStep := targetTempStep;
      currentTemperature := 0.0;
      currentOperation := defaultOperation;
      currentFanMode := defaultFanMode;
      this.operationList := operationList;
      this.fanList := fanList;
      this.defaultOperationFromIdle := defaultOperationFromIdle;
      this.hub := hub;
      this.deviceId := deviceId;
      new;
      TemperatureSensorChanged(sensorReading);
    }

    method SendIr()
      modifies hub
      ensures hub.sent == old(hub.sent) + [(deviceId, CommandOf(Model()))]
    {
      var command := Command(currentOperation, currentFanMode, targetTemperature);
      hub.SendCommand(deviceId, command);
    }

    method TemperatureSensorChanged(reading: Option<real>)
      modifies this
      ensures currentTemperature == reading.GetOr(old(currentTemperature))
      ensures Model() == old(Model())
    {
      if reading.Some? {
        currentTemperature := reading.value;
      }
    }

    method SetTemperature(temperature: Option<real>)
      modifies this, hub
      ensures Model() == SetTemperatureStep(old(Model()), defaultOperationFromIdle, temperature).state
      ensures hub.sent == old(hub.sent) +
                          Tagged(deviceId, SetTemperatureStep(old(Model()), defaultOperationFromIdle, temperature).commands)
      ensures currentTemperature == old(currentTemperature)
    {
      ghost var before := Model();
      if temperature.Some? {
        targetTemperature := temperature.value;
        assert Model() == before.(target := temperature.value);
        if !IsInactive(currentOperation) {
          SendIr();
        } else if defaultOperationFromIdle.Some? {
          SetOperationMode(defaultOperationFromIdle.value);
        }
      }
    }

    method SetFanMode(fanMode: string)
      modifies this, hub
      ensures Model() == SetFanModeStep(old(Model()), fanMode).state
      ensures hub.sent == old(hub.sent) + Tagged(deviceId, SetFanModeStep(old(Model()), fanMode).commands)
      ensures currentTemperature == old(currentTemperature)
    {
      currentFanMode := fanMode;
      if !IsInactive(currentOperation) {
        SendIr();
      }
    }

    method SetOperationMode(operationMode: string)
      modifies this, hub
      ensures Model() == SetOperationModeStep(old(Model()), operationMode).state
      ensures hub.sent == old(hub.sent) + Tagged(deviceId, SetOperationModeStep(old(Model()), operationMode).commands)
      ensures currentTemperature == old(currentTemperature)
    {
      currentOperation := operationMode;
      SendIr();
    }

    method Restore(last: Option<LastState>) returns (keyError: bool)
      modifies this
      ensures Restored(Model(), keyError) == RestoreStep(old(Model()), last)
      ensures currentTemperature == old(currentTemperature)
    {
      keyError := false;
      if last.Some? {
        var attributes := last.value;
        if attributes.temperature.None? {
          return true;
        }
        targetTemperature := attributes.temperature.value;
        if attributes.operationMode.None? {
          return true;
        }
        currentOperation := attributes.operationMode.value;
        if attributes.fanMode.None? {
          return true;
        }
        currentFanMode := attributes.fanMode.value;
      }
    }
  }

  /** Sets up one entity from the configuration, falling back to the default
      lists. */
  method SetupPlatform(config: PlatformConfig, hub: Hub, sensorReading: Option<real>) returns (entity: IrClimate)
    ensures fresh(entity) && entity.hub == hub && entity.deviceId == config.deviceId
    ensures entity.operationList == ListOrDefault(config.customOperations, DefaultOperationList)
    ensures entity.fanList == ListOrDefault(config.customFanModes, DefaultFanModeList)
    ensures entity.defaultOperationFromIdle == config.defaultOperationFromIdle
    ensures entity.name == config.name && entity.minTemp == config.minTemp && entity.maxTemp == config.maxTemp
    ensures entity.targetTemperatureStep == config.targetTempStep
    ensures entity.currentTemperature == sensorReading.GetOr(0.0)
    ensures entity.Model() == InitialState(config.targetTemp, config.defaultOperation, config.defaultFanMode)
  {
    var operationList := ListOrDefault(config.customOperations, DefaultOperationList);
    var fanList := ListOrDefault(config.customFanModes, DefaultFanModeList);
    entity := new IrClimate(config.name, hub, config.deviceId, config.minTemp, config.maxTemp,
                            config.targetTemp, config.targetTempStep, sensorReading,
                            operationList, fanList, config.defaultOperation, config.defaultFanMode,
                            config.defaultOperationFromIdle);
  }
}
