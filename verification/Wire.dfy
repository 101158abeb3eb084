/** The messages exchanged between Gateway and Agent (internal/proto/message.go) and the Agent's
    dispatcher (agent/dispatch.go). */
module Wire {
  type Json = string

  datatype ErrorCode =
    | InvalidRequest
    | Timeout
    | TransportLost
    | ExecutionUnknown
    | InternalError
    | Unsupported
    | ProcessNotFound
    | SandboxViolation
    | FileTooLarge
    | PermissionDenied
    | DeviceOffline

  datatype RpcError = RpcError(code: ErrorCode, message: string)

  datatype Outcome = Result(raw: Json) | Failed(error: RpcError)

  datatype Request = Request(id: string, rpc: string, params: Json)

  datatype Response = Response(id: string, outcome: Outcome)

  const MaxRPCMessageBytes: nat := 33_554_432

  const MaxCommandOutputBytes: nat := 2_097_152

  const MaxFileReadBytes: nat := 8_388_608

  /** Methods that change Agent-side state. */
  const MutatingMethods: set<string> := {
    "command.exec", "process.start", "process.write", "process.terminate",
    "file.write", "file.move", "file.delete", "directory.create"
  }

  predicate IsMutatingMethod(rpc: string) {
    rpc in MutatingMethods
  }

  /** The methods an Agent registers. */
  const AgentMethods: set<string> := {
    "execution.list", "execution.get", "command.exec", "command.read", "read.query", "process.start", "process.read",
    "process.write", "process.wait", "process.terminate", "process.list", "device.ping", "file.read", "file.stat",
    "file.list", "file.write", "file.move", "file.delete", "directory.create"
  }

  /** Those that only look: at the history, at processes, at files, at the system, or at anything inside the sandbox. */
  const LookingMethods: set<string> := {
    "execution.list", "execution.get", "command.read", "read.query", "process.read", "process.wait", "process.list",
    "device.ping", "file.read", "file.stat", "file.list"
  }

  /** Every registered method either only looks or counts as changing state, and nothing else does. */
  lemma MethodsAreSorted(rpc: string)
    ensures IsMutatingMethod(rpc) <==> rpc in AgentMethods && rpc !in LookingMethods
  {
  }

  /** What a handler function hands back to the dispatcher. `Opaque` is a value that does not encode
      as JSON. */
  datatype HandlerResult =
    | Value(raw: Json)
    | Opaque(reason: string)
    | Refused(error: RpcError)

  /** What a caller may conclude from an outcome: a result is the value its handler gave, an error the one its handler
      gave, or says that the method is unknown or the value would not encode; and nothing a handler gave is changed on
      the way. */
  ghost predicate Tells(methods: set<string>, rpc: string, handled: HandlerResult, outcome: Outcome) {
    && (forall raw :: outcome == Result(raw) <==> rpc in methods && handled == Value(raw))
    && (forall e :: rpc in methods && handled == Refused(e) ==> outcome == Failed(e))
    && (forall e :: outcome == Failed(e) && rpc in methods && !handled.Refused? ==>
          exists reason :: handled == Opaque(reason) && e == RpcError(InternalError, reason))
    && (rpc !in methods ==> outcome.Failed? && outcome.error.code == InvalidRequest)
  }

  /** One fresh response for each request, carrying the request's id and what the handler of its method gave. */
  function Dispatch(methods: set<string>, req: Request, handled: HandlerResult): (resp: Response)
    ensures resp.id == req.id
    ensures Tells(methods, req.rpc, handled, resp.outcome)
  {
    if req.rpc !in methods then
      Response(req.id, Failed(RpcError(InvalidRequest, "unknown method: " + req.rpc)))
    else
      match handled
      case Refused(error) => Response(req.id, Failed(error))
      case Opaque(reason) => Response(req.id, Failed(RpcError(InternalError, reason)))
      case Value(raw) => Response(req.id, Result(raw))
  }
}
