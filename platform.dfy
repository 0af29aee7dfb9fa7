/** What the climate adapter sees of its surroundings: the hub client it sends
    infrared commands through, and the attributes the host platform persisted
    for the entity before a restart. */
module Platform {
  import opened Wrappers

  /** The hub client, reduced to the log of (device id, command) pairs it was
      asked to send, oldest first. */
  class Hub {
    var sent: seq<(string, string)>

    constructor ()
      ensures sent == []
    {
      sent := [];
    }

    /** Sends one command to one device: exactly one entry is appended. */
    method SendCommand(device: string, command: string)
      modifies this
      ensures sent == old(sent) + [(device, command)]
    {
      sent := sent + [(device, command)];
    }
  }

  /** The log entries for sending `commands` to `device`, in order. */
  function Tagged(device: string, commands: seq<string>): (r: seq<(string, string)>)
    ensures |r| == |commands|
    ensures forall i :: 0 <= i < |r| ==> r[i] == (device, commands[i])
  {
    if commands == [] then [] else [(device, commands[0])] + Tagged(device, commands[1..])
  }

  /** The persisted attributes of the entity's last state. Each one may be
      missing from the stored attribute dictionary. */
  datatype LastState = LastState(temperature: Option<real>, operationMode: Option<string>, fanMode: Option<string>)
}
