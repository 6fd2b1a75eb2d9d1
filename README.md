# Student-record store of a Flask CRUD service, in Dafny

The service keeps student records (id, name, marks, grade, course) in one CSV
file. Every request to its record endpoints reloads the whole file as an
ordered list, runs one list operation on it and, for a mutation that
succeeds, writes the whole list back. This project models that record store:

- `records.dfy`, module `Records`: the `Record` row, the `Reply` a handler
  gives (a value, or the 404 reply `Record not found`) and the delete
  handler's success message.
- `record_list.dfy`, module `RecordList`: the list logic of the handlers as
  functions — the first-match scan of get and update (`FirstIndex`,
  `Lookup`), the id rule of create (`MaxId`, `NextId`) and the filter of
  delete (`Without`) — with the lemmas that state what the handlers promise:
  the assigned id exceeds every stored id and skips none, delete removes
  every match and keeps the survivors in order, it succeeds exactly when some
  record matched, a second delete finds nothing, create and delete keep ids
  unique and increasing, and update can break uniqueness.
- `server.dfy`, module `Server`: class `Store`, whose `data` field stands for
  the CSV file, with one method per handler (`List`, `Get`, `Create`,
  `Update`, `Delete`), each proved against the functions above; plus three
  clients of the class (`DeleteTwice`, `CreateThenDelete`, `ExampleSession`)
  that chain handler calls.

Points where the code does less than its names and docstrings suggest, and
the model follows the code:

- Update stores the request body verbatim, id included, and never checks it
  against the path id (server.py:146-151). Create assigns ids that are
  unique, but update can break that. `ReplaceCanDuplicateIds` states when
  uniqueness breaks; `AppendNextKeepsIdsUnique` and `WithoutKeepsIdsUnique`
  show that create and delete preserve it.
- The create endpoint's documented body schema, `NewRecord`
  (server.py:70-87), has no id. The code assigns the new id over whatever
  the body holds (server.py:95-98), so `Create` takes a full `Record` and
  overwrites its `id`.
- Delete removes every record carrying the id, not just one
  (server.py:174).

## Model

| member | source | states |
|---|---|---|
| RecordList.FirstIndex | server.py:146 | the index found is the first slot whose record carries the id; None exactly when no stored record carries it |
| RecordList.Lookup | server.py:55 | the record found carries the id and sits at the first matching slot; NotFound exactly when no stored record carries the id |
| RecordList.LookupIsFirstIndex | server.py:146 | get answers with the record in the very slot update would overwrite, and both miss together |
| RecordList.MaxId | server.py:98 | the maximum of a non-empty list is a stored id and no stored id exceeds it |
| RecordList.NextId | server.py:95-98 | the assigned id is 1 on an empty store, otherwise one more than a stored id, and strictly greater than every stored id |
| RecordList.NextIdIsLeastFresh | server.py:98 | on a non-empty store the assigned id is the least integer above all stored ids |
| RecordList.AppendNextThenLookup | server.py:95-100 | after appending the created record, get of its id finds it, in the last slot |
| RecordList.AppendNextKeepsIdsUnique | server.py:95-100 | appending a record with the assigned id keeps ids unique |
| RecordList.AppendNextKeepsIdsIncreasing | server.py:95-100 | appending a record with the assigned id keeps ids strictly increasing in list order |
| RecordList.ReplaceThenLookup | server.py:146-149 | after update with a body keeping the path id, get of that id returns the body |
| RecordList.ReplaceCanDuplicateIds | server.py:149 | an update body carrying another stored record's id leaves two slots with that id |
| RecordList.Without | server.py:174 | the filtered list is no longer, holds no record with the id, and holds only stored records |
| RecordList.WithoutAppend | server.py:174 | the filter distributes over concatenation, so it never reorders the records it keeps |
| RecordList.WithoutSingle | server.py:174 | a single record survives the filter exactly when its id differs from the deleted one |
| RecordList.WithoutKeepsOthers | server.py:174 | every record of another id survives as many times as it was stored |
| RecordList.WithoutShrinksIff | server.py:174-176 | the filtered list is shorter exactly when some stored record carries the id, and equals the input otherwise |
| RecordList.WithoutIdempotent | server.py:174-180 | filtering twice equals filtering once, so a second delete does not shorten the list |
| RecordList.WithoutKeepsIdsIncreasing | server.py:174 | the filter keeps strictly increasing ids increasing |
| RecordList.WithoutKeepsIdsUnique | server.py:174 | the filter keeps unique ids unique |
| Server.Store.constructor | service.py:10-11 | a store whose file is missing loads as the empty list |
| Server.Store.List | server.py:33-34 | returns the stored list exactly, same records, same order |
| Server.Store.Get | server.py:54-59 | returns the first stored record carrying the id, NotFound exactly when none does; reads the store only |
| Server.Store.Create | server.py:92-102 | the body gets the next id (1 on an empty store, above every stored id), is appended after the unchanged earlier records and is returned |
| Server.Store.Update | server.py:143-153 | with a match, exactly the first matching slot becomes the body verbatim and the body is returned; without one, NotFound and the store is unchanged; the length never changes |
| Server.Store.Delete | server.py:173-180 | the store becomes the filtered list; success with the fixed message exactly when some record carried the id, otherwise NotFound and the store unchanged; no record with the id remains |
| Server.DeleteTwice | server.py:173-180 | of two deletes of one id in a row the second answers NotFound, and a get of that id afterwards answers NotFound |
| Server.CreateThenDelete | server.py:93-180 | a create followed by a delete keeps the ids of a store in increasing order, hence unique |
| Server.ExampleSession | server.py:33-180 | from an empty file: creates get ids 1 and 2, delete of 1 succeeds, get of 1 then answers NotFound, the list holds only id 2, and an update of 2 is returned by a later get |

## Left out

- CSV persistence (`read_csv`, `read_csv_as_dataframe`, `write_csv` in
  service.py): parsing, serialising and column-type inference belong to the
  pandas library. The file is the `data` field; a load reads it, a write
  assigns it, and a missing file is the empty store. The write-then-read
  round trip is therefore not modelled, nor a failing read or write.
  One consequence: when a delete removes the last record, the source writes
  an empty list (server.py:177). By pandas' behaviour (not part of this
  model, and not executed) that file has no header and cannot be read back:
  the next load raises an empty-data error that only a missing file is
  caught for (service.py:10). The model's empty `data` stays readable, so
  after such a delete it answers later requests (NotFound, an empty list,
  id 1 on create) where the source fails with a server error.
- Server.DeleteTwice: its second delete answers NotFound in the model; in
  the source it fails with a server error when the first delete emptied
  the file, as described in the line above.
- The visualisation handlers (server.py:183-236): floating-point averages by
  course, counts by grade and Plotly figure construction are library calls.
- Flask plumbing: routing, JSON encoding, HTTP status codes as transport
  (the `Reply` constructors stand for 200/201 and 404), the template pages
  (server.py:239-247), the API documentation strings and the fixed health
  string (server.py:22).
- Concurrency: simultaneous read-modify-write requests on the shared file
  race; the code has no concurrency control, and the model runs one request
  at a time.
- Malformed request bodies (missing `id`, extra keys, values of other
  types): they turn into missing values or extra columns after the CSV round
  trip, which is library behaviour. Bodies are well-formed `Record`s.
- `marks` is carried as an uninterpreted number: the handlers never compute
  with it, and its floating-point representation is not modelled.
- Identifiers are unbounded integers; the 64-bit column type the CSV reader
  may infer is not modelled.
- The get handler tests the found record for truthiness; a stored record
  always has its columns and so is always truthy, and the model treats
  "found" as "some record matched".
