/** The climate platform built on the asynchronous hub client: a thermostat
    entity that turns its operation mode, fan mode and target temperature into
    one infrared command string and sends it to a device on the hub. It also
    remembers the last operation that was not off or idle, so that turning the
    entity on brings that operation back.

    The behaviour is given twice. First come pure step functions over a
    `Thermostat` value, each returning the new value and the commands sent,
    together with the lemmas about them. Then comes the class `IrClimate`,
    whose methods update the entity's fields in place and append to the hub's
    log, and are proved to do what the step functions say. */
module HarmonyClimate {
  import opened Wrappers
  import opened Text
  import opened Numbers
  import opened Platform
  import opened ClimateCommon

  /** The infrared command for an operation mode, a fan mode and a target
      temperature: "Off" when the capitalized mode is "Off" or "Idle",
      otherwise capitalized mode, capitalized fan mode and the truncated
      temperature, concatenated. */
  function Command(operation: string, fanMode: string, target: real): (r: string)
    ensures r == "Off" <==> IsInactive(operation)
    ensures !IsInactive(operation) ==> r == Capitalize(operation) + Capitalize(fanMode) + IntToDecimal(Trunc(target))
  {
    CapitalizedInactive(operation);
    var mode := Capitalize(operation);
    var fan := Capitalize(fanMode);
    var temp := IntToDecimal(Trunc(target));
    if mode == "Off" || mode == "Idle" then "Off"
    else
      var r := mode + fan + temp;
      assert r[|r| - 1] == temp[|temp| - 1];
      r
  }

  /** An active command carries the temperature: with mode and fan mode fixed,
      two temperatures give the same command exactly when they truncate to
      the same integer. */
  lemma CommandDistinguishesTemperatures(operation: string, fanMode: string, t1: real, t2: real)
    requires !IsInactive(operation)
    ensures Command(operation, fanMode, t1) == Command(operation, fanMode, t2) <==> Trunc(t1) == Trunc(t2)
  {
    var prefix := Capitalize(operation) + Capitalize(fanMode);
    var d1, d2 := IntToDecimal(Trunc(t1)), IntToDecimal(Trunc(t2));
    if Command(operation, fanMode, t1) == Command(operation, fanMode, t2) {
      assert (prefix + d1)[|prefix|..] == d1;
      assert (prefix + d2)[|prefix|..] == d2;
    }
    IntToDecimalInjective(Trunc(t1), Trunc(t2));
  }

  /** Heat, high fan and 22.7 degrees give "HeatHigh22"; idle gives "Off"
      whatever the fan mode and temperature. */
  lemma CommandExamples()
    ensures Command("heat", "high", 22.7) == "HeatHigh22"
    ensures Command("IDLE", "low", 30.0) == "Off"
  {
    var heat := Command("heat", "high", 22.7);
    assert !IsInactive("heat") by { assert Lower("heat") == "heat"; }
    assert heat == Capitalize("heat") + Capitalize("high") + IntToDecimal(Trunc(22.7));
    assert Capitalize("heat") == "Heat";
    assert Capitalize("high") == "High";
    assert Trunc(22.7) == 22;
    assert IntToDecimal(22) == "22" by { assert IntToDecimal(22) == NatToDecimal(2) + "2"; }
    assert IsInactive("IDLE") by { assert Lower("IDLE") == StateIdle; }
  }

  /** The state that decides what the entity sends. */
  datatype Thermostat = Thermostat(target: real, operation: string, fanMode: string, lastOperation: string)

  /** The state after one setter call and the commands it sent, in order. */
  datatype Step = Step(state: Thermostat, commands: seq<string>)

  /** The state after a restore, and whether reading a missing attribute
      raised a key error part-way. */
  datatype Restored = Restored(state: Thermostat, keyError: bool)

  function CommandOf(s: Thermostat): string {
    Command(s.operation, s.fanMode, s.target)
  }

  /** The first entry of the operation list that is neither off nor idle. */
  function FirstActive(operations: seq<string>): Option<string> {
    if operations == [] then None
    else if !IsInactive(operations[0]) then Some(operations[0])
    else FirstActive(operations[1..])
  }

  /** The last operation the constructor starts from: the default operation
      when it is active, otherwise the first active entry of the operation
      list, otherwise the default operation after all. */
  function InitialLastOperation(defaultOperation: string, operations: seq<string>): string {
    if !IsInactive(defaultOperation) then defaultOperation
    else FirstActive(operations).GetOr(defaultOperation)
  }

  function InitialState(targetTemp: int, defaultOperation: string, defaultFanMode: string,
                        operations: seq<string>): Thermostat {
    Thermostat(targetTemp as real, defaultOperation, defaultFanMode,
               InitialLastOperation(defaultOperation, operations))
  }

  function SetOperationModeStep(s: Thermostat, operationMode: string): Step {
    var next := s.(operation := operationMode,
                   lastOperation := if IsInactive(operationMode) then s.lastOperation else operationMode);
    Step(next, [CommandOf(next)])
  }

  function SetTemperatureStep(s: Thermostat, fromIdle: Option<string>, temperature: Option<real>): Step {
    match temperature
    case None => Step(s, [])
    case Some(t) =>
      var next := s.(target := t);
      if !IsInactive(next.operation) then Step(next, [CommandOf(next)])
      else if fromIdle.Some? then SetOperationModeStep(next, fromIdle.value)
      else Step(next, [])
  }

  function SetFanModeStep(s: Thermostat, fanMode: string): Step {
    var next := s.(fanMode := fanMode);
    if !IsInactive(next.operation) then Step(next, [CommandOf(next)]) else Step(next, [])
  }

  function TurnOnStep(s: Thermostat): Step {
    SetOperationModeStep(s, s.lastOperation)
  }

  function TurnOffStep(s: Thermostat): Step {
    SetOperationModeStep(s, StateOff)
  }

  /** Restoring reads temperature, operation mode and fan mode in that order;
      the first missing one raises, leaving the earlier ones overwritten. */
  function RestoreStep(s: Thermostat, last: Option<LastState>): Restored {
    match last
    case None => Restored(s, false)
    case Some(a) =>
      if a.temperature.None? then Restored(s, true)
      else
        var withTarget := s.(target := a.temperature.value);
        if a.operationMode.None? then Restored(withTarget, true)
        else
          var withOperation := withTarget.(operation := a.operationMode.value);
          if a.fanMode.None? then Restored(withOperation, true)
          else Restored(withOperation.(fanMode := a.fanMode.value), false)
  }

  // ----- The constructor's scan of the operation list -----

  /** The scan stops at the first active entry. */
  lemma {:induction false} FirstActiveAt(operations: seq<string>, k: nat)
    requires k < |operations| && !IsInactive(operations[k])
    requires forall j :: 0 <= j < k ==> IsInactive(operations[j])
    ensures FirstActive(operations) == Some(operations[k])
  {
    if k > 0 {
      var rest := operations[1..];
      assert forall j :: 0 <= j < k - 1 ==> rest[j] == operations[j + 1];
      FirstActiveAt(rest, k - 1);
    }
  }

  /** The scan finds nothing exactly when every entry is off or idle. */
  lemma {:induction false} FirstActiveNone(operations: seq<string>)
    ensures FirstActive(operations) == None <==> forall i :: 0 <= i < |operations| ==> IsInactive(operations[i])
  {
    if operations != [] {
      var rest := operations[1..];
      FirstActiveNone(rest);
      assert forall i :: 1 <= i < |operations| ==> operations[i] == rest[i - 1];
      if FirstActive(operations) == None {
        assert forall i :: 0 <= i < |rest| ==> IsInactive(rest[i]);
      }
    }
  }

  /** What the constructor scan picks, case by case: an active default; else
      the operation list's first active entry `operations[k]`; else the
      default. */
  lemma InitialLastOperationCases(defaultOperation: string, operations: seq<string>, k: nat)
    ensures !IsInactive(defaultOperation) ==> InitialLastOperation(defaultOperation, operations) == defaultOperation
    ensures IsInactive(defaultOperation) && k < |operations| && !IsInactive(operations[k]) &&
            (forall j :: 0 <= j < k ==> IsInactive(operations[j]))
            ==> InitialLastOperation(defaultOperation, operations) == operations[k]
    ensures IsInactive(defaultOperation) && (forall i :: 0 <= i < |operations| ==> IsInactive(operations[i]))
            ==> InitialLastOperation(defaultOperation, operations) == defaultOperation
  {
    FirstActiveNone(operations);
    if k < |operations| && !IsInactive(operations[k]) && forall j :: 0 <= j < k ==> IsInactive(operations[j]) {
      FirstActiveAt(operations, k);
    }
  }

  /** The recalled operation starts out active exactly when the default
      operation or some entry of the operation list is active. */
  lemma InitialLastOperationActive(defaultOperation: string, operations: seq<string>)
    ensures !IsInactive(InitialLastOperation(defaultOperation, operations)) <==>
            !IsInactive(defaultOperation) || exists i :: 0 <= i < |operations| && !IsInactive(operations[i])
  {
    FirstActiveNone(operations);
    if IsInactive(defaultOperation) && FirstActive(operations).Some? {
      FirstActiveIsActive(operations);
    }
  }

  lemma {:induction false} FirstActiveIsActive(operations: seq<string>)
    requires FirstActive(operations).Some?
    ensures !IsInactive(FirstActive(operations).value)
  {
    if IsInactive(operations[0]) {
      FirstActiveIsActive(operations[1..]);
    }
  }

  /** With the default configuration (default operation "off" and the default
      operation list) turning on selects "heat". */
  lemma DefaultConfigRecallsHeat(deviceId: string)
    ensures var config := DefaultConfig(deviceId);
            InitialLastOperation(config.defaultOperation, ListOrDefault(config.customOperations, DefaultOperationList))
            == StateHeat
  {
    assert Lower(DefaultOperation) == StateOff;
    assert Lower(StateHeat) == StateHeat;
    FirstActiveAt(DefaultOperationList, 1);
  }

  /** The configured target temperature is a whole number, so the entity's
      first active command carries it exactly as configured. */
  lemma InitialCommandCarriesConfiguredTemperature(targetTemp: int, defaultOperation: string,
                                                   defaultFanMode: string, operations: seq<string>)
    requires !IsInactive(defaultOperation)
    ensures CommandOf(InitialState(targetTemp, defaultOperation, defaultFanMode, operations)) ==
            Capitalize(defaultOperation) + Capitalize(defaultFanMode) + IntToDecimal(targetTemp)
  {
    TruncOfWhole(targetTemp);
  }

  // ----- What each setter sends -----

  /** Absent temperature: nothing changes and nothing is sent. Otherwise the
      target is updated and then: an active entity sends one command carrying
      the new temperature; an inactive one with a default operation from idle
      switches to it through the operation-mode setter, which sends the one
      command; an inactive one without it sends nothing. */
  lemma SetTemperatureSends(s: Thermostat, fromIdle: Option<string>, temperature: Option<real>)
    ensures temperature.None? ==> SetTemperatureStep(s, fromIdle, temperature) == Step(s, [])
    ensures var r := SetTemperatureStep(s, fromIdle, temperature);
            |r.commands| == (if temperature.Some? && (!IsInactive(s.operation) || fromIdle.Some?) then 1 else 0)
    ensures var r := SetTemperatureStep(s, fromIdle, temperature);
            temperature.Some? ==> r.state.target == temperature.value && r.state.fanMode == s.fanMode
    ensures var r := SetTemperatureStep(s, fromIdle, temperature);
            temperature.Some? && !IsInactive(s.operation) ==>
              r.state.operation == s.operation && r.state.lastOperation == s.lastOperation &&
              r.commands == [Command(s.operation, s.fanMode, temperature.value)]
    ensures var r := SetTemperatureStep(s, fromIdle, temperature);
            temperature.Some? && IsInactive(s.operation) && fromIdle.Some? ==>
              r == SetOperationModeStep(s.(target := temperature.value), fromIdle.value)
    ensures var r := SetTemperatureStep(s, fromIdle, temperature);
            temperature.Some? && IsInactive(s.operation) && fromIdle.None? ==>
              r.state == s.(target := temperature.value) && r.commands == []
  {
  }

  /** The fan mode is stored; one command goes out exactly when the operation
      is active; operation, target and recalled operation stay. */
  lemma SetFanModeSends(s: Thermostat, fanMode: string)
    ensures SetFanModeStep(s, fanMode).state == s.(fanMode := fanMode)
    ensures |SetFanModeStep(s, fanMode).commands| == (if IsInactive(s.operation) then 0 else 1)
    ensures !IsInactive(s.operation) ==>
              SetFanModeStep(s, fanMode).commands == [Command(s.operation, fanMode, s.target)]
  {
  }

  /** Exactly one command, "Off" exactly when the new mode is off or idle; the
      recalled operation becomes the new mode exactly when it is active. */
  lemma SetOperationModeSends(s: Thermostat, operationMode: string)
    ensures var r := SetOperationModeStep(s, operationMode);
            |r.commands| == 1 && (r.commands[0] == "Off" <==> IsInactive(operationMode))
    ensures var r := SetOperationModeStep(s, operationMode);
            r.state.operation == operationMode && r.state.target == s.target && r.state.fanMode == s.fanMode
    ensures var r := SetOperationModeStep(s, operationMode);
            IsInactive(operationMode) ==> r.state.lastOperation == s.lastOperation
    ensures var r := SetOperationModeStep(s, operationMode);
            !IsInactive(operationMode) ==> r.state.lastOperation == operationMode
  {
  }

  /** Turning off sends "Off" and keeps the recalled operation; turning on
      right after selects that recalled operation, whatever the configured
      default was. */
  lemma TurnOnAfterTurnOff(s: Thermostat)
    ensures TurnOffStep(s).commands == ["Off"]
    ensures TurnOffStep(s).state == s.(operation := StateOff)
    ensures TurnOnStep(TurnOffStep(s).state).state.operation == s.lastOperation
    ensures TurnOnStep(TurnOffStep(s).state).commands == [Command(s.lastOperation, s.fanMode, s.target)]
  {
  }

  /** Turning on turns the device on whenever the recalled operation is
      active: the command sent is not "Off". */
  lemma TurnOnSendsActiveCommand(s: Thermostat)
    requires !IsInactive(s.lastOperation)
    ensures |TurnOnStep(s).commands| == 1 && TurnOnStep(s).commands[0] != "Off"
  {
  }

  // ----- Invariants the setters keep -----

  /** The hub is driven by the whole current state: a setter sends at most one
      command, that command is the one for the new state, and when it sends
      nothing the new state's command is the one the hub already had. */
  predicate DrivesHub(before: Thermostat, r: Step) {
    (r.commands == [] && CommandOf(r.state) == CommandOf(before)) || r.commands == [CommandOf(r.state)]
  }

  lemma SettersDriveHub(s: Thermostat, fromIdle: Option<string>, temperature: Option<real>,
                        fanMode: string, operationMode: string)
    ensures DrivesHub(s, SetTemperatureStep(s, fromIdle, temperature))
    ensures DrivesHub(s, SetFanModeStep(s, fanMode))
    ensures DrivesHub(s, SetOperationModeStep(s, operationMode))
    ensures DrivesHub(s, TurnOnStep(s))
    ensures DrivesHub(s, TurnOffStep(s))
  {
  }

  /** An active recalled operation never becomes inactive: no setter stores
      an off or idle mode into it (and restore does not touch it, see
      `RestoreOverwrites`). */
  lemma RecalledOperationStaysActive(s: Thermostat, fromIdle: Option<string>, temperature: Option<real>,
                                     fanMode: string, operationMode: string)
    requires !IsInactive(s.lastOperation)
    ensures !IsInactive(SetTemperatureStep(s, fromIdle, temperature).state.lastOperation)
    ensures !IsInactive(SetFanModeStep(s, fanMode).state.lastOperation)
    ensures !IsInactive(SetOperationModeStep(s, operationMode).state.lastOperation)
    ensures !IsInactive(TurnOnStep(s).state.lastOperation)
    ensures !IsInactive(TurnOffStep(s).state.lastOperation)
  {
  }

  /** The recalled operation is the current one whenever the current one is
      active. */
  predicate Recalls(s: Thermostat) {
    !IsInactive(s.operation) ==> s.lastOperation == s.operation
  }

  /** The constructor establishes `Recalls` and every setter keeps it. */
  lemma SettersKeepRecall(s: Thermostat, fromIdle: Option<string>, temperature: Option<real>,
                          fanMode: string, operationMode: string,
                          targetTemp: int, defaultOperation: string, defaultFanMode: string, operations: seq<string>)
    ensures Recalls(InitialState(targetTemp, defaultOperation, defaultFanMode, operations))
    ensures Recalls(s) ==> Recalls(SetTemperatureStep(s, fromIdle, temperature).state)
    ensures Recalls(s) ==> Recalls(SetFanModeStep(s, fanMode).state)
    ensures Recalls(SetOperationModeStep(s, operationMode).state)
    ensures Recalls(TurnOnStep(s).state)
    ensures Recalls(TurnOffStep(s).state)
  {
  }

  /** While `Recalls` holds, turning an active entity off and on again gives
      back exactly the state it had, and the command it had. */
  lemma TurnOffThenOnRestores(s: Thermostat)
    requires Recalls(s) && !IsInactive(s.operation)
    ensures TurnOnStep(TurnOffStep(s).state) == Step(s, [CommandOf(s)])
  {
  }

  /** Restore is the one step that overwrites the operation without the
      recalled operation: restoring "cool" over a state that recalls "heat",
      then turning off and on, brings back "heat". */
  lemma RestoreDoesNotRecall()
    ensures var s := Thermostat(20.0, StateOff, "auto", StateHeat);
            var restored := RestoreStep(s, Some(LastState(Some(23.0), Some(StateCool), Some("low")))).state;
            !Recalls(restored) &&
            TurnOnStep(TurnOffStep(restored).state).state.operation == StateHeat
  {
  }

  // ----- Restore -----

  /** An absent snapshot changes nothing. A complete one overwrites target,
      operation and fan mode and nothing else. A missing attribute raises
      after the attributes read before it were stored. The recalled operation
      is never touched, and restoring sends nothing. */
  lemma RestoreOverwrites(s: Thermostat, last: Option<LastState>)
    ensures last.None? ==> RestoreStep(s, last) == Restored(s, false)
    ensures RestoreStep(s, last).state.lastOperation == s.lastOperation
    ensures last.Some? && last.value.temperature.Some? && last.value.operationMode.Some? && last.value.fanMode.Some? ==>
              RestoreStep(s, last) ==
              Restored(Thermostat(last.value.temperature.value, last.value.operationMode.value,
                                  last.value.fanMode.value, s.lastOperation), false)
    ensures RestoreStep(s, last).keyError <==>
              last.Some? && (last.value.temperature.None? || last.value.operationMode.None? || last.value.fanMode.None?)
    ensures last.Some? && last.value.temperature.None? ==> RestoreStep(s, last).state == s
    ensures last.Some? && last.value.temperature.Some? && last.value.operationMode.None? ==>
              RestoreStep(s, last).state == s.(target := last.value.temperature.value)
    ensures last.Some? && last.value.temperature.Some? && last.value.operationMode.Some? && last.value.fanMode.None? ==>
              RestoreStep(s, last).state ==
              s.(target := last.value.temperature.value, operation := last.value.operationMode.value)
  {
  }

  /** The 23 / "cool" / "low" snapshot yields those values. */
  lemma RestoreExample(s: Thermostat)
    ensures var r := RestoreStep(s, Some(LastState(Some(23.0), Some(StateCool), Some("low"))));
            !r.keyError && r.state.target == 23.0 && r.state.operation == StateCool && r.state.fanMode == "low"
  {
  }

  // ----- The entity -----

  /** A thermostat entity driving one infrared device through the hub. */
  class IrClimate {
    const name: string
    const hub: Hub
    const deviceId: string
    const minTemp: int
    const maxTemp: int
    const targetTemperatureStep: int
    const operationList: seq<string>
    const fanList: seq<string>
    const defaultOperationFromIdle: Option<string>

    var targetTemperature: real
    var currentTemperature: real
    var currentOperation: string
    var lastOperation: string
    var currentFanMode: string

    /** The fields that decide what is sent. */
    function Model(): Thermostat
      reads this
    {
      Thermostat(targetTemperature, currentOperation, currentFanMode, lastOperation)
    }

    /** `sensorReading` is the temperature sensor's present reading, already
        parsed and converted, or None when there is no sensor, no reading or
        no number. */
    constructor (name: string, hub: Hub, deviceId: string, minTemp: int, maxTemp: int,
                 targetTemp: int, targetTempStep: int, sensorReading: Option<real>,
                 operationList: seq<string>, fanList: seq<string>,
                 defaultOperation: string, defaultFanMode: string,
                 defaultOperationFromIdle: Option<string>)
      ensures this.name == name && this.hub == hub && this.deviceId == deviceId
      ensures this.minTemp == minTemp && this.maxTemp == maxTemp && this.targetTemperatureStep == targetTempStep
      ensures this.operationList == operationList && this.fanList == fanList
      ensures this.defaultOperationFromIdle == defaultOperationFromIdle
      ensures Model() == InitialState(targetTemp, defaultOperation, defaultFanMode, operationList)
      ensures currentTemperature == sensorReading.GetOr(0.0)
    {
      this.name := name;
      this.minTemp := minTemp;
      this.maxTemp := maxTemp;
      targetTemperature := targetTemp as real;
      targetTemperatureStep := targetTempStep;
      currentTemperature := 0.0;
      currentOperation := defaultOperation;
      lastOperation := defaultOperation;
      currentFanMode := defaultFanMode;
      this.operationList := operationList;
      this.fanList := fanList;
      this.defaultOperationFromIdle := defaultOperationFromIdle;
      this.hub := hub;
      this.deviceId := deviceId;
      new;
      if IsInactive(lastOperation) {
        for i := 0 to |operationList|
          invariant lastOperation == defaultOperation
          invariant FirstActive(operationList[i..]) == FirstActive(operationList)
        {
          assert operationList[i..][0] == operationList[i];
          if !IsInactive(operationList[i]) {
            lastOperation := operationList[i];
            break;
          }
          assert operationList[i..][1..] == operationList[i + 1..];
        }
      }
      TemperatureSensorChanged(sensorReading);
    }

    /** Sends the command for the current state to the device. */
    method SendIr()
      modifies hub
      ensures hub.sent == old(hub.sent) + [(deviceId, CommandOf(Model()))]
    {
      var command := Command(currentOperation, currentFanMode, targetTemperature);
      hub.SendCommand(deviceId, command);
    }

    /** A new sensor reading replaces the current temperature; an absent one
        leaves it. */
    method TemperatureSensorChanged(reading: Option<real>)
      modifies this
      ensures currentTemperature == reading.GetOr(old(currentTemperature))
      ensures Model() == old(Model())
    {
      if reading.Some? {
        currentTemperature := reading.value;
      }
    }

    /** The entity's reported state: always the current operation. */
    function State(): (r: string)
      reads this
      ensures r == currentOperation
    {
      if currentOperation != StateOff then currentOperation else StateOff
    }

    method SetTemperature(temperature: Option<real>)
      modifies this, hub
      ensures Model() == SetTemperatureStep(old(Model()), defaultOperationFromIdle, temperature).state
      ensures hub.sent == old(hub.sent) +
                          Tagged(deviceId, SetTemperatureStep(old(Model()), defaultOperationFromIdle, temperature).commands)
      ensures currentTemperature == old(currentTemperature)
    {
      ghost var before := Model();
      if temperature.Some? {
        targetTemperature := temperature.value;
        assert Model() == before.(target := temperature.value);
        if !IsInactive(currentOperation) {
          SendIr();
        } else if defaultOperationFromIdle.Some? {
          SetOperationMode(defaultOperationFromIdle.value);
        }
      }
    }

    method SetFanMode(fanMode: string)
      modifies this, hub
      ensures Model() == SetFanModeStep(old(Model()), fanMode).state
      ensures hub.sent == old(hub.sent) + Tagged(deviceId, SetFanModeStep(old(Model()), fanMode).commands)
      ensures currentTemperature == old(currentTemperature)
    {
      currentFanMode := fanMode;
      if !IsInactive(currentOperation) {
        SendIr();
      }
    }

    method SetOperationMode(operationMode: string)
      modifies this, hub
      ensures Model() == SetOperationModeStep(old(Model()), operationMode).state
      ensures hub.sent == old(hub.sent) + Tagged(deviceId, SetOperationModeStep(old(Model()), operationMode).commands)
      ensures currentTemperature == old(currentTemperature)
    {
      currentOperation := operationMode;
      if !IsInactive(currentOperation) {
        lastOperation := currentOperation;
      }
      SendIr();
    }

    method TurnOn()
      modifies this, hub
      ensures Model() == TurnOnStep(old(Model())).state
      ensures hub.sent == old(hub.sent) + Tagged(deviceId, TurnOnStep(old(Model())).commands)
      ensures currentTemperature == old(currentTemperature)
    {
      SetOperationMode(lastOperation);
    }

    method TurnOff()
      modifies this, hub
      ensures Model() == TurnOffStep(old(Model())).state
      ensures hub.sent == old(hub.sent) + Tagged(deviceId, TurnOffStep(old(Model())).commands)
      ensures currentTemperature == old(currentTemperature)
    {
      SetOperationMode(StateOff);
    }

    /** Restores the persisted attributes; `keyError` reports that one of
        them was missing and the restore stopped there. Nothing is sent. */
    method Restore(last: Option<LastState>) returns (keyError: bool)
      modifies this
      ensures Restored(Model(), keyError) == RestoreStep(old(Model()), last)
      ensures currentTemperature == old(currentTemperature)
    {
      keyError := false;
      if last.Some? {
        var attributes := last.value;
        if attributes.temperature.None? {
          return true;
        }
        targetTemperature := attributes.temperature.value;
        if attributes.operationMode.None? {
          return true;
        }
        currentOperation := attributes.operationMode.value;
        if attributes.fanMode.None? {
          return true;
        }
        currentFanMode := attributes.fanMode.value;
      }
    }
  }

  /** Sets up one entity from the configuration, falling back to the default
      lists; no entity is created when the hub client could not be made. */
  method SetupPlatform(config: PlatformConfig, hub: Hub?, sensorReading: Option<real>) returns (entity: IrClimate?)
    ensures hub == null <==> entity == null
    ensures entity != null ==>
              fresh(entity) && entity.hub == hub && entity.deviceId == config.deviceId &&
              entity.operationList == ListOrDefault(config.customOperations, DefaultOperationList) &&
              entity.fanList == ListOrDefault(config.customFanModes, DefaultFanModeList) &&
              entity.defaultOperationFromIdle == config.defaultOperationFromIdle &&
              entity.name == config.name && entity.minTemp == config.minTemp && entity.maxTemp == config.maxTemp &&
              entity.targetTemperatureStep == config.targetTempStep &&
              entity.currentTemperature == sensorReading.GetOr(0.0) &&
              entity.Model() == InitialState(config.targetTemp, config.defaultOperation, config.defaultFanMode,
                                             entity.operationList)
  {
    var operationList := ListOrDefault(config.customOperations, DefaultOperationList);
    var fanList := ListOrDefault(config.customFanModes, DefaultFanModeList);
    if hub == null {
      return null;
    }
    entity := new IrClimate(config.name, hub, config.deviceId, config.minTemp, config.maxTemp,
                            config.targetTemp, config.targetTempStep, sensorReading,
                            operationList, fanList, config.defaultOperation, config.defaultFanMode,
                            config.defaultOperationFromIdle);
  }
}
