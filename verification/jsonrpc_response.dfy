/**
 Responses and error values: `handleMessage`, `call` and `buildResult` of pkg/jsonrpc/jsonrpc.go and
 the errors of pkg/jsonrpc/error.go.  The requirements on a response are those of sections 5 and 5.1
 of the JSON-RPC 2.0 Specification.
 */
module JsonRpcResponse {

  // ---------- errors ----------

  /** An objx.Map: a reference, so two errors can share it. */
  class Data {
    var entries: map<string, string>

    constructor (entries: map<string, string>)
      ensures this.entries == entries
    {
      this.entries := entries;
    }
  }

  datatype Error = Error(code: int, message: string, data: Data?)

  /** The package-level errors, whose data is nil. */
  datatype Base = Parse | InvalidRequest | MethodNotFound | InvalidParams | Internal | ServerError

  function BaseError(b: Base): Error {
    match b
    case Parse => Error(-32700, "Parse error", null)
    case InvalidRequest => Error(-32600, "Invalid Request", null)
    case MethodNotFound => Error(-32601, "Method not found", null)
    case InvalidParams => Error(-32602, "Invalid params", null)
    case Internal => Error(-32603, "Internal error", null)
    case ServerError => Error(-32000, "Server error", null)
  }

  predicate ServerCode(c: int) {
    -32099 <= c <= -32000
  }

  function SetCode(e: Error, c: int): Error {
    if ServerCode(e.code) && ServerCode(c) then e.(code := c) else e
  }

  ghost function Entries(e: Error): map<string, string>
    reads e.data
  {
    if e.data == null then map[] else e.data.entries
  }

  /** AddData: it writes into a copy.  Nothing that existed before changes, so no error that shares the old map does. */
  method AddData(e: Error, key: string, value: string) returns (r: Error)
    ensures r == e.(data := r.data) && r.data != null && fresh(r.data)
    ensures Entries(r) == Entries(e)[key := value]
  {
    var cp := new Data(if e.data == null then map[] else e.data.entries);
    cp.entries := cp.entries[key := value];
    r := e.(data := cp);
  }

  function SetData(e: Error, data: Data): Error {
    e.(data := data)
  }

  datatype Edit = ToCode(code: int) | Add(key: string, value: string) | Replace(data: map<string, string>)

  /** Code and message after a chain of SetCode, AddData and SetData calls. */
  function Edited(code: int, edits: seq<Edit>): int
    decreases |edits|
  {
    if edits == [] then code
    else
      var before := Edited(code, edits[..|edits| - 1]);
      match edits[|edits| - 1]
      case ToCode(c) => if ServerCode(before) && ServerCode(c) then c else before
      case _ => before
  }

  function EditedEntries(entries: map<string, string>, edits: seq<Edit>): map<string, string>
    decreases |edits|
  {
    if edits == [] then entries
    else
      var before := EditedEntries(entries, edits[..|edits| - 1]);
      match edits[|edits| - 1]
      case Add(k, v) => before[k := v]
      case Replace(d) => d
      case ToCode(_) => before
  }

  /** A chain on a shared error: the result has a map of its own or the shared one unwritten, and no
      existing map, that of the shared error included, changes. */
  method Chain(e: Error, edits: seq<Edit>) returns (r: Error)
    ensures r.code == Edited(e.code, edits) && r.message == e.message
    ensures Entries(r) == EditedEntries(Entries(e), edits)
    ensures r.data == e.data || fresh(r.data)
  {
    r := e;
    for i := 0 to |edits|
      invariant r.code == Edited(e.code, edits[..i]) && r.message == e.message
      invariant Entries(r) == EditedEntries(Entries(e), edits[..i])
      invariant r.data == e.data || fresh(r.data)
    {
      assert edits[..i + 1][..i] == edits[..i];
      match edits[i]
      case ToCode(c) => r := SetCode(r, c);
      case Add(k, v) => r := AddData(r, k, v);
      case Replace(d) =>
        var data := new Data(d);
        r := SetData(r, data);
    }
    assert edits[..|edits|] == edits;
  }

  /** The codes the errors of the package can have. */
  predicate Reachable(code: int, message: string) {
    match message
    case "Server error" => -32099 <= code <= -32000
    case "Parse error" => code == -32700
    case "Invalid Request" => code == -32600
    case "Method not found" => code == -32601
    case "Invalid params" => code == -32602
    case "Internal error" => code == -32603
    case _ => false
  }

  lemma {:induction false} ReachableAlong(b: Base, edits: seq<Edit>)
    ensures Reachable(Edited(BaseError(b).code, edits), BaseError(b).message)
    decreases |edits|
  {
    if edits != [] {
      ReachableAlong(b, edits[..|edits| - 1]);
      var before := Edited(BaseError(b).code, edits[..|edits| - 1]);
      if b != ServerError {
        assert !ServerCode(before);
      }
    }
  }

  ghost predicate Made(code: int, message: string) {
    exists b: Base, edits: seq<Edit> :: Edited(BaseError(b).code, edits) == code && BaseError(b).message == message
  }

  /** A code goes with a message exactly when some chain of edits of a package-level error gives both. */
  lemma ReachableIffMade(code: int, message: string)
    ensures Reachable(code, message) <==> Made(code, message)
  {
    if Made(code, message) {
      var b: Base, edits: seq<Edit> :| Edited(BaseError(b).code, edits) == code && BaseError(b).message == message;
      ReachableAlong(b, edits);
    }
    if Reachable(code, message) {
      if message == "Server error" {
        assert [ToCode(code)][..0] == [];
        assert Edited(BaseError(ServerError).code, [ToCode(code)]) == code;
      } else {
        var b: Base :| b != ServerError && code == BaseError(b).code && message == BaseError(b).message;
        assert Edited(BaseError(b).code, []) == code;
      }
    }
  }

  // ---------- responses ----------

  datatype Request = Request(version: string, rpcMethod: string, id: string)

  /** What decoding the message gave. */
  datatype Decode = Decoded | NotDecoded(reason: string)

  datatype Value = Nil | Plain(json: string) | Notification(process: string)

  datatype GoError = NoError | Rpc(e: Error) | Foreign(text: string)

  /** What the Caller does with a request. */
  datatype Behaviour = Returns(res: Value, err: GoError) | Panics(value: string)

  datatype Response = Response(version: string, id: string, result: Value, failed: bool, error: Error)

  datatype Outcome = Answer(response: Response) | Crash

  /** buildResult */
  method BuildResult(id: string, res: Value, e: GoError) returns (r: Response)
    ensures r.version == "2.0" && r.id == (if id == "" then "null" else id)
    ensures r.failed <==> !e.NoError?
    ensures r.result == if e.NoError? then res else Nil
    ensures e.Rpc? ==> r.error == e.e
    ensures e.Foreign? ==>
              r.error.code == -32098 && r.error.message == "Server error" && Entries(r.error) == map["msg" := e.text]
  {
    var rerr := BaseError(ServerError);
    if e.Rpc? {
      rerr := e.e;
    } else if e.Foreign? {
      rerr := AddData(rerr, "msg", e.text);
      rerr := SetCode(rerr, -32098);
    }
    r := Response("2.0", if id == "" then "null" else id, if e.NoError? then res else Nil, !e.NoError?, rerr);
  }

  /** call: a panic of the Caller becomes an error when panics are caught. */
  method DoCall(b: Behaviour, catchPanic: bool, stack: string) returns (crashed: bool, res: Value, err: GoError)
    ensures crashed <==> b.Panics? && !catchPanic
    ensures b.Returns? ==> res == b.res && err == b.err
    ensures b.Panics? ==>
              && res == Nil && err.Rpc? && err.e.code == -32099 && err.e.message == "Server error"
              && Entries(err.e) == map["msg" := b.value, "panic" := "true", "stack" := stack]
  {
    match b
    case Returns(r, e) => crashed, res, err := false, r, e;
    case Panics(value) =>
      var data := new Data(map["msg" := value, "panic" := "true", "stack" := stack]);
      crashed, res, err := !catchPanic, Nil, Rpc(SetCode(SetData(BaseError(ServerError), data), -32099));
  }

  function Shown(v: Value): Value {
    match v
    case Notification(p) => Plain("{\"notification\":true,\"process_id\":\"" + p + "\"}")
    case _ => v
  }

  /** The response is an error with that code and message, and what it says. */
  ghost predicate IsError(r: Outcome, code: int, message: string, data: map<string, string>)
    reads if r.Answer? then {r.response.error.data} else {}
  {
    && r.Answer? && r.response.failed && r.response.error.code == code && r.response.error.message == message
    && Entries(r.response.error) == data
  }

  /** handleMessage */
  method HandleMessage(req: Request, decode: Decode, b: Behaviour, catchPanic: bool, stack: string) returns (r: Outcome)
    ensures r.Answer? ==>
              && r.response.version == "2.0"
              && r.response.id == (if decode.NotDecoded? || req.id == "" then "null" else req.id)
              && (r.response.failed <==> r.response.result.Nil?)
    ensures decode.NotDecoded? ==> IsError(r, -32700, "Parse error", map["msg" := decode.reason])
    ensures decode.Decoded? && req.version != "2.0" ==>
              IsError(r, -32600, "Invalid Request", map["msg" := "bad jsonrpc version"])
    ensures decode.Decoded? && req.version == "2.0" && req.rpcMethod == "" ==>
              IsError(r, -32600, "Invalid Request", map["msg" := "empty method"])
    ensures decode.Decoded? && req.version == "2.0" && req.rpcMethod != "" ==>
              match b
              case Panics(value) =>
                if catchPanic then
                  IsError(r, -32099, "Server error", map["msg" := value, "panic" := "true", "stack" := stack])
                else r.Crash?
              case Returns(_, Foreign(text)) => IsError(r, -32098, "Server error", map["msg" := text])
              case Returns(_, Rpc(e)) => r.Answer? && r.response.failed && r.response.error == e
              case Returns(Nil, NoError) => r.Crash?
              case Returns(Plain(json), NoError) => r.Answer? && r.response.result == Plain(json)
              case Returns(Notification(p), NoError) =>
                r.Answer? && r.response.result == Plain("{\"notification\":true,\"process_id\":\"" + p + "\"}")
    ensures r.Answer? && r.response.failed
            && (b.Returns? && b.err.Rpc? ==> Reachable(b.err.e.code, b.err.e.message)) ==>
              Reachable(r.response.error.code, r.response.error.message)
  {
    var response;
    match decode
    case NotDecoded(reason) =>
      var e := AddData(BaseError(Parse), "msg", reason);
      response := BuildResult("", Nil, Rpc(e));
      assert Reachable(BaseError(Parse).code, BaseError(Parse).message);
      return Answer(response);
    case Decoded =>
    assert Reachable(BaseError(InvalidRequest).code, BaseError(InvalidRequest).message);
    if req.version != "2.0" {
      var e := AddData(BaseError(InvalidRequest), "msg", "bad jsonrpc version");
      response := BuildResult(req.id, Nil, Rpc(e));
      return Answer(response);
    }
    if req.rpcMethod == "" {
      var e := AddData(BaseError(InvalidRequest), "msg", "empty method");
      response := BuildResult(req.id, Nil, Rpc(e));
      return Answer(response);
    }
    var crashed, res, err := DoCall(b, catchPanic, stack);
    if crashed {
      return Crash;
    }
    if err.NoError? {
      res := Shown(res);
    }
    if res.Nil? && err.NoError? {
      return Crash;
    }
    response := BuildResult(req.id, res, err);
    r := Answer(response);
  }
}
