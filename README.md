# Notebook service: verified model

This project models the logic of a small service that exposes one
parameterised notebook over HTTP (main.py). A client posts named inputs;
the service runs the notebook with them, extracts the text of the cell
tagged `results`, answers with a fresh request id and that text, and
appends a record `{request_id, timestamp, request, result}` to an
in-process history list. A second endpoint returns the first record of
that list with a given id.

- `results.dfy` (module `Results`): `Option` and `Result`, used for the
  exceptions the source raises and catches.
- `notebook.dfy` (module `Notebook`): cells with optional tags and outputs
  whose `text` key may be absent; `Extracted`, the specification of
  `extract_results` as a fold over the cells; `ExtractResults`, the loop
  itself; lemmas that state the result is exactly the first lines of the
  tagged cells, in order, and what makes it fail.
- `service.dfy` (module `Service`): `process_request` as `ProcessRequest`
  (with the specification `Processed`); the request body as JSON; the
  history as class `History` with a `seq<Record>` field that `Submit`
  appends to and `Query` scans; `Lookup`, the functional first-match
  lookup, and lemmas about it.

The notebook run (papermill) is an `Executor` parameter: a total function
from the inputs and the request id to the output cells or an error
message. The request id and the timestamp are parameters of `Submit`.

`extract_results` reads the first line of every tagged cell
(main.py:31-33) before `process_request` takes element 0 (main.py:49), so
a malformed tagged cell after a good one makes the request fail
(`Service.LaterMalformedTaggedCellFails`).

## Model

| member | source | states |
|---|---|---|
| `Notebook.TaggedCells` | main.py:31-32 | the tagged cells, in order: never more than the cells, and every one carries the `results` tag |
| `Notebook.TaggedCellsMembers` | main.py:31-32 | a cell is in the filtered list exactly when it is a cell of the notebook whose `tags` holds `results` |
| `Notebook.ExtractResults` | main.py:30-35 | the loop returns `Extracted(cells)`: the lines of all tagged cells, or the first exception raised |
| `Notebook.ExtractedErrPersists` | main.py:31-33 | an exception inside the loop ends it: once a prefix of the cells raises, the whole notebook raises the same error |
| `Notebook.ExtractedOkIff` | main.py:31-33 | extraction succeeds if and only if every tagged cell has a first output with a non-empty `text` list; untagged cells are never indexed |
| `Notebook.ExtractedIsFirstLinesOfTagged` | main.py:30-35 | on success the list has one entry per tagged cell, so it is never longer than the cell list, and entry k is `outputs[0].text[0]` of the k-th tagged cell |
| `Notebook.ExtractedIgnoresUntagged` | main.py:31-33 | dropping the untagged cells changes neither the result nor the error |
| `Notebook.ExtractedErrIsFirstMalformed` | main.py:31-33 | a failure is the error of the first tagged cell, in order, that lacks outputs, a `text` key or a first line |
| `Service.ProcessRequest` | main.py:38-49 | returns `Processed`: the run's error, the extraction error, "no result cell" for an empty list, or element 0 |
| `Service.ProcessedIsFirstTaggedCell` | main.py:47-49 | succeeds exactly when the run succeeds, every tagged cell is well formed and some cell is tagged; the answer is the first line of the first tagged cell |
| `Service.AnswerNotebookGives42` | main.py:30-49 | an output notebook whose tagged cell's first output has text `["42"]`, after untagged cells (one without text), yields `"42"` |
| `Service.LaterMalformedTaggedCellFails` | main.py:30-49 | a second tagged cell with no outputs fails the request although the first tagged cell is well formed |
| `Service.LookupIsFirstMatch` | main.py:88-94 | the lookup finds a record exactly when one has the id, and then the first in insertion order |
| `Service.LookupAfterAppend` | main.py:78-92 | appending a record keeps every earlier answer and makes a new id answer with the new record |
| `Service.LookupDistinct` | main.py:88-92 | with distinct ids every stored record is what a query for its id returns |
| `Service.History.constructor` | main.py:11 | the history starts empty |
| `Service.History.Submit` | main.py:67-85 | on success appends exactly one record (id, timestamp, whole body, result) after the unchanged earlier ones and answers with id and result; on any failure, including a body without `inputs`, answers with the error and status 404 and leaves the history unchanged; a fresh id keeps ids distinct |
| `Service.History.Query` | main.py:88-94 | answers the first record in insertion order with the id, and "not found" exactly when no record has it, which is the answer of `Lookup`; changes nothing |
| `Service.SubmitThenQuery` | main.py:67-94 | a successful submission with a fresh id, queried by that id, returns the record with the same request and result; a failed one leaves the history unchanged |

## Left out

- HTTP routing, `request.get_json` and `jsonify`: replies are values (`SubmitReply`, `QueryReply`) with a `Status()` of 200 or 404. A body `request.get_json()` cannot parse raises at main.py:67, outside the `try`; that reply (400 or 415, not a 404, with nothing appended) is not modelled.
- The text of `repr(e)` in error replies: failures are the `ServiceError` datatype rather than Python's exception text.
- `pm.execute_notebook`: a third-party notebook executor, replaced by the `Executor` parameter; the output file it writes per request is a side effect only and is not modelled.
- Reading the output file and `json.load`: the model starts from parsed cells; a document without a `cells` key or a cell without `metadata` (which the notebook format always provides) is not modelled.
- Notebook documents whose `tags` value or `text` value is a string rather than a list (where Python's `in` and `[0]` act on characters): the model takes both as lists of strings, as the notebook format writes them.
- Markdown and raw cells, which have no `outputs` key: a tagged one raises KeyError at main.py:33; the model represents such a cell with `outputs == []`, which gives `NoOutputs`, with the same outcome (404, nothing appended).
- `uuid.uuid4`: ids are parameters; their uniqueness is only probable, so it is a hypothesis of `SubmitThenQuery` and `LookupDistinct`, not a guarantee of `Submit`.
- `time.time()`: the timestamp is a parameter carried into the record unchanged.
- Concurrent requests on the shared list: the source has no synchronisation and promises nothing; the model is sequential.
