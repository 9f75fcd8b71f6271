/** The recorded events, restricted to the variants the store and the analyzer look at.
    Every other payload variant is `Other`, which keeps its name. */
module Events {
  import opened Bytes

  datatype Option<+T> = None | Some(value: T)

  datatype Source =
    | SrcMark | System | IoReport | Vm | Proc | OsLog | Thermal | MachExc | CrashReport | MetalHook | PythonSidecar

  /** The stable numeric identity used as a bitmap index. */
  function SourceIndex(s: Source): (k: nat)
    ensures k < 11
  {
    match s
    case SrcMark => 0
    case System => 1
    case IoReport => 2
    case Vm => 3
    case Proc => 4
    case OsLog => 5
    case Thermal => 6
    case MachExc => 7
    case CrashReport => 8
    case MetalHook => 9
    case PythonSidecar => 10
  }

  datatype OpSample = OpSample(name: string, symbol: Option<string>, gpuNs: nat, count: nat, apportioned: Option<nat>)

  datatype Payload =
    | CbCommitted(cb: u64, queue: u64)
    | CbScheduled(cb: u64, queue: u64)
    | CbCompleted(cb: u64, queue: u64, inFlightNs: u64)
    | CbOps(cb: u64, ops: seq<OpSample>)
    | DeviceMemSample(inUse: u64, recommendedMax: u64)
    | EvalEntered(call: u64, moduleStack: seq<u64>)
    | EvalReturned(call: u64, wasAsync: bool)
    | ModuleEntered(call: u64, qualname: string, parent: Option<u64>)
    | ModuleReturned(call: u64)
    | Other(kind: string)

  datatype Event = Event(ts: u64, seqNo: u64, source: Source, payload: Payload)
}
