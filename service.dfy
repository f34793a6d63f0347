/**
  * The notebook service (main.py): `process_request`, which runs the
  * notebook and returns the first tagged result, and the request history
  * behind `POST /request` (`submit_request`) and `GET /request/<id>`
  * (`query_request`).
  *
  * Running the notebook is an opaque `Executor` passed in; the request id
  * and the timestamp are passed in as well. HTTP framing is reduced to the
  * reply values and their status codes.
  */
module Service {
  import opened Results
  import opened Notebook

  type RequestId = string

  /** Wall-clock seconds as the source reads them; only carried through. */
  type Timestamp = real

  /** A parsed JSON request body. */
  datatype Json =
    | Null
    | Bool(b: bool)
    | Number(n: real)
    | Str(s: string)
    | Array(items: seq<Json>)
    | Object(fields: map<string, Json>)

  /**
    * Runs the parameterised notebook with the given inputs, writing the
    * output document named after the request id, and yields its cells or
    * the message of the exception it raised.
    */
  type Executor = (Json, RequestId) -> Result<seq<Cell>, string>

  /** Every failure caught by `submit_request`; all are answered with status 404. */
  datatype ServiceError =
    | InputsMissing                   // `data["inputs"]` on a body without that key
    | ExecutionFailed(message: string)  // the notebook run raised
    | Malformed(cause: ExtractError)  // a tagged cell has no first line
    | NoResultCell                    // `results[0]` on an empty list

  const NotFoundStatus: int := 404
  const OkStatus: int := 200
  const NotFoundMessage: string := "Request not found"

  /** One entry of the request history. */
  datatype Record = Record(requestId: RequestId, timestamp: Timestamp, request: Json, result: string)

  /** The reply of `submit_request`. */
  datatype SubmitReply = Accepted(requestId: RequestId, result: string) | Rejected(error: ServiceError)
  {
    function Status(): int {
      if Accepted? then OkStatus else NotFoundStatus
    }
  }

  /** The reply of `query_request`; `NotFound` carries `NotFoundMessage`. */
  datatype QueryReply = Found(record: Record) | NotFound
  {
    function Status(): int {
      if Found? then OkStatus else NotFoundStatus
    }
  }

  /** What `process_request` returns for some inputs: the first extracted result. */
  function Processed(inputs: Json, id: RequestId, execute: Executor): Result<string, ServiceError> {
    match execute(inputs, id)
    case Err(message) => Err(ExecutionFailed(message))
    case Ok(cells) =>
      match Extracted(cells)
      case Err(cause) => Err(Malformed(cause))
      case Ok(results) => if |results| == 0 then Err(NoResultCell) else Ok(results[0])
  }

  /** `data["inputs"]`: only an object body with that key has inputs. */
  function InputsOf(body: Json): Result<Json, ServiceError> {
    if body.Object? && "inputs" in body.fields then Ok(body.fields["inputs"]) else Err(InputsMissing)
  }

  /** Everything evaluated inside the `try` of `submit_request`. */
  function Submission(body: Json, id: RequestId, execute: Executor): Result<string, ServiceError> {
    match InputsOf(body)
    case Err(e) => Err(e)
    case Ok(inputs) => Processed(inputs, id, execute)
  }

  /** `process_request`: run the notebook, extract the tagged results, take the first. */
  method ProcessRequest(inputs: Json, id: RequestId, execute: Executor) returns (r: Result<string, ServiceError>)
    ensures r == Processed(inputs, id, execute)
  {
    var run := execute(inputs, id);
    if run.Err? {
      return Err(ExecutionFailed(run.error));
    }
    var results := ExtractResults(run.value);
    if results.Err? {
      return Err(Malformed(results.error));
    }
    if |results.value| == 0 {
      return Err(NoResultCell);
    }
    r := Ok(results.value[0]);
  }

  /**
    * `process_request` answers with the first line of the first tagged
    * cell of the executed notebook, and fails exactly when the run fails,
    * a tagged cell is malformed, or no cell is tagged.
    */
  lemma ProcessedIsFirstTaggedCell(inputs: Json, id: RequestId, execute: Executor)
    ensures Processed(inputs, id, execute).Ok? <==>
      && execute(inputs, id).Ok?
      && (forall i :: 0 <= i < |execute(inputs, id).value| && IsTagged(execute(inputs, id).value[i])
            ==> FirstLine(execute(inputs, id).value[i]).Ok?)
      && TaggedCells(execute(inputs, id).value) != []
    ensures Processed(inputs, id, execute).Ok? ==>
      Ok(Processed(inputs, id, execute).value) == FirstLine(TaggedCells(execute(inputs, id).value)[0])
  {
    var run := execute(inputs, id);
    if run.Ok? {
      ExtractedOkIff(run.value);
      if Extracted(run.value).Ok? {
        ExtractedIsFirstLinesOfTagged(run.value);
      }
    }
  }

  /** An output notebook whose only tagged cell's first output has text ["42"], after two untagged cells, one of them without text. */
  function AnswerNotebook(): seq<Cell> {
    [ Cell(Some(["parameters"]), []),
      Cell(None, [Output(None)]),
      Cell(Some(["results"]), [Output(Some(["42"]))]) ]
  }

  /** The service answers "42" for that notebook; the untagged cells are never indexed. */
  lemma AnswerNotebookGives42(inputs: Json, id: RequestId, execute: Executor)
    requires execute(inputs, id) == Ok(AnswerNotebook())
    ensures Processed(inputs, id, execute) == Ok("42")
  {
    var cells := AnswerNotebook();
    assert "parameters" != ResultsTag;
    assert Extracted(cells[..1]) == Step(Extracted([]), cells[0]) == Ok([]);
    assert cells[..2][..1] == cells[..1];
    assert Extracted(cells[..2]) == Step(Extracted(cells[..1]), cells[1]) == Ok([]);
    assert cells[..2] == cells[..|cells| - 1];
    assert cells[2].tags.value[0] == ResultsTag;
    assert IsTagged(cells[2]) && FirstLine(cells[2]) == Ok("42");
    var none: seq<string> := [];
    assert none + ["42"] == ["42"];
    assert Extracted(cells) == Step(Extracted(cells[..2]), cells[2]) == Ok(["42"]);
  }

  /**
    * Every tagged cell is read before the first result is taken: a later
    * tagged cell without outputs makes the request fail even though the
    * first tagged cell has its line.
    */
  lemma LaterMalformedTaggedCellFails(inputs: Json, id: RequestId, execute: Executor)
    requires execute(inputs, id) == Ok([Cell(Some(["results"]), [Output(Some(["42"]))]), Cell(Some(["results"]), [])])
    ensures Processed(inputs, id, execute) == Err(Malformed(NoOutputs))
  {
    var cells := execute(inputs, id).value;
    assert cells[0].tags.value[0] == ResultsTag && cells[1].tags.value[0] == ResultsTag;
    assert IsTagged(cells[0]) && FirstLine(cells[0]) == Ok("42") && IsTagged(cells[1]);
    var none: seq<string> := [];
    assert Extracted([]) == Ok(none) && none + ["42"] == ["42"];
    assert Extracted(cells[..1]) == Step(Extracted([]), cells[0]) == Ok(["42"]);
    assert cells[..1] == cells[..|cells| - 1];
    assert Extracted(cells) == Step(Extracted(cells[..1]), cells[1]) == Err(NoOutputs);
  }

  /** All request ids of a history are different. */
  predicate DistinctIds(records: seq<Record>) {
    forall i, j :: 0 <= i < j < |records| ==> records[i].requestId != records[j].requestId
  }

  /** Whether some record of the history has the id. */
  predicate HasId(records: seq<Record>, id: RequestId) {
    exists i :: 0 <= i < |records| && records[i].requestId == id
  }

  /** The record `query_request` returns: the first one, in insertion order, with the id. */
  function Lookup(records: seq<Record>, id: RequestId): Option<Record> {
    if records == [] then None
    else if records[0].requestId == id then Some(records[0])
    else Lookup(records[1..], id)
  }

  /** `Lookup` finds a record exactly when one has the id, and then the first such one. */
  lemma {:induction false} LookupIsFirstMatch(records: seq<Record>, id: RequestId)
    ensures Lookup(records, id).Some? <==> HasId(records, id)
    ensures Lookup(records, id).Some? ==> exists i ::
      && 0 <= i < |records| && records[i] == Lookup(records, id).value && records[i].requestId == id
      && (forall j :: 0 <= j < i ==> records[j].requestId != id)
  {
    if records != [] && records[0].requestId != id {
      var rest := records[1..];
      LookupIsFirstMatch(rest, id);
      assert forall i :: 0 <= i < |rest| ==> rest[i] == records[i + 1];
      if HasId(records, id) {
        var i :| 0 <= i < |records| && records[i].requestId == id;
        assert rest[i - 1].requestId == id;
      }
      if Lookup(rest, id).Some? {
        var i :| 0 <= i < |rest| && rest[i] == Lookup(rest, id).value && rest[i].requestId == id
          && (forall j :: 0 <= j < i ==> rest[j].requestId != id);
        assert records[i + 1] == Lookup(records, id).value;
      }
    }
  }

  /** Appending a record leaves every earlier answer in place and answers its own id if it was new. */
  lemma {:induction false} LookupAfterAppend(records: seq<Record>, rec: Record, id: RequestId)
    ensures Lookup(records + [rec], id) ==
      if Lookup(records, id).Some? then Lookup(records, id)
      else if rec.requestId == id then Some(rec)
      else None
  {
    if records != [] {
      assert (records + [rec])[1..] == records[1..] + [rec];
      LookupAfterAppend(records[1..], rec, id);
    }
  }

  /** In a history with distinct ids, every record is what a query for its id returns. */
  lemma {:induction false} LookupDistinct(records: seq<Record>, k: nat)
    requires DistinctIds(records) && k < |records|
    ensures Lookup(records, records[k].requestId) == Some(records[k])
  {
    if k > 0 {
      assert DistinctIds(records[1..]);
      assert records[1..][k - 1] == records[k];
      LookupDistinct(records[1..], k - 1);
    }
  }

  /** The process-wide history list `requests_history`. */
  class History {
    var records: seq<Record>

    /** The history starts empty. */
    constructor ()
      ensures records == []
    {
      records := [];
    }

    /**
      * `submit_request`: a successful run appends exactly one record
      * (id, timestamp, whole body, result) after the earlier ones; any
      * failure leaves the history as it was and is answered with 404.
      */
    method Submit(body: Json, id: RequestId, timestamp: Timestamp, execute: Executor) returns (reply: SubmitReply)
      modifies this
      ensures reply.Accepted? <==> Submission(body, id, execute).Ok?
      ensures reply.Accepted? ==>
        && reply == Accepted(id, Submission(body, id, execute).value)
        && records == old(records) + [Record(id, timestamp, body, reply.result)]
      ensures reply.Rejected? ==>
        && reply.error == Submission(body, id, execute).error
        && reply.Status() == NotFoundStatus
        && records == old(records)
      ensures DistinctIds(old(records)) && !HasId(old(records), id) ==> DistinctIds(records)
    {
      var inputs := InputsOf(body);
      if inputs.Err? {
        return Rejected(inputs.error);
      }
      var result := ProcessRequest(inputs.value, id, execute);
      if result.Err? {
        return Rejected(result.error);
      }
      records := records + [Record(id, timestamp, body, result.value)];
      reply := Accepted(id, result.value);
    }

    /**
      * `query_request`: a linear scan in insertion order that returns the
      * first record with the id, or `NotFound` exactly when none has it.
      */
    method Query(id: RequestId) returns (reply: QueryReply)
      ensures reply.Found? <==> HasId(records, id)
      ensures reply.Found? ==> exists i ::
        && 0 <= i < |records| && records[i] == reply.record && records[i].requestId == id
        && (forall j :: 0 <= j < i ==> records[j].requestId != id)
      ensures reply == if Lookup(records, id).Some? then Found(Lookup(records, id).value) else NotFound
    {
      LookupIsFirstMatch(records, id);
      var i := 0;
      while i < |records|
        invariant 0 <= i <= |records|
        invariant forall j :: 0 <= j < i ==> records[j].requestId != id
      {
        if records[i].requestId == id {
          return Found(records[i]);
        }
        i := i + 1;
      }
      return NotFound;
    }
  }

  /**
    * A submission with a fresh id followed by a query on the id it returns
    * gives back the stored record with the same request and result.
    */
  method SubmitThenQuery(history: History, body: Json, id: RequestId, timestamp: Timestamp, execute: Executor)
    returns (submitted: SubmitReply, queried: QueryReply)
    requires !HasId(history.records, id)
    modifies history
    ensures submitted.Accepted? ==> queried == Found(Record(id, timestamp, body, submitted.result))
    ensures submitted.Rejected? ==> history.records == old(history.records) && queried == NotFound
  {
    ghost var before := history.records;
    submitted := history.Submit(body, id, timestamp, execute);
    queried := history.Query(id);
    if submitted.Accepted? {
      var n := |before|;
      assert history.records[n].requestId == id;
      assert forall j :: 0 <= j < n ==> history.records[j] == before[j];
      var i :| 0 <= i < |history.records| && history.records[i] == queried.record
        && history.records[i].requestId == id
        && (forall j :: 0 <= j < i ==> history.records[j].requestId != id);
      assert i == n;
    }
  }
}
