/** The record handlers of the service. Each request reloads the whole data
    file, runs one list operation and, for a mutation that succeeds, writes
    the whole list back. The data file is the `data` field of a Store: a
    load reads it, a write reassigns it. */
module Server {
  import opened Records
  import opened RecordList

  class Store {
    /** The rows of the data file, in file order. */
    var data: seq<Record>

    /** A store whose data file does not exist yet: loading it yields no
        rows. */
    constructor ()
      ensures data == []
    {
      data := [];
    }

    /** GET /api/data: every stored record, in stored order, nothing
        filtered or reordered. */
    method List() returns (r: seq<Record>)
      ensures r == data
    {
      r := data;
    }

    /** GET /api/data/{id}: the first stored record carrying `id`, or
        NotFound when none does. The store is only read. */
    method Get(id: int) returns (r: Reply<Record>)
      ensures r == Lookup(data, id)
      ensures r.NotFound? <==> !HasId(data, id)
      ensures r.Ok? ==> r.value.id == id && exists k :: IsFirstMatch(data, id, k) && data[k] == r.value
    {
      r := Lookup(data, id);
    }

    /** POST /api/data: the body gets the next identifier, overwriting any
        identifier the client sent, is appended and is returned. */
    method Create(body: Record) returns (r: Record)
      modifies this
      ensures r == body.(id := NextId(old(data)))
      ensures old(data) == [] ==> r.id == 1
      ensures forall i :: 0 <= i < |old(data)| ==> old(data)[i].id < r.id
      ensures data == old(data) + [r]
      ensures |data| == |old(data)| + 1 && data[..|old(data)|] == old(data) && data[|data| - 1] == r
    {
      var rec := body.(id := NextId(data));
      data := data + [rec];
      r := rec;
    }

    /** PUT /api/data/{id}: the first slot carrying `id` takes the body
        verbatim, whatever identifier the body carries, and the body is
        returned; with no such slot the reply is NotFound and nothing is
        written. */
    method Update(id: int, body: Record) returns (r: Reply<Record>)
      modifies this
      ensures r.NotFound? <==> !HasId(old(data), id)
      ensures r.NotFound? ==> data == old(data)
      ensures r.Ok? ==> r.value == body
      ensures r.Ok? ==> exists k :: IsFirstMatch(old(data), id, k) && data == old(data)[k := body]
      ensures |data| == |old(data)|
    {
      match FirstIndex(data, id)
      case None =>
        r := NotFound;
      case Some(k) =>
        data := data[k := body];
        r := Ok(body);
    }

    /** DELETE /api/data/{id}: every record carrying `id` is dropped, the
        survivors keep their order; the reply is the success message when
        the list got shorter and NotFound, with nothing written, otherwise. */
    method Delete(id: int) returns (r: Reply<string>)
      modifies this
      ensures r.Ok? <==> HasId(old(data), id)
      ensures r.Ok? ==> r.value == DeletedMessage
      ensures r.NotFound? ==> data == old(data)
      ensures data == Without(old(data), id)
      ensures !HasId(data, id)
    {
      var kept := Without(data, id);
      WithoutShrinksIff(data, id);
      if |kept| < |data| {
        data := kept;
        r := Ok(DeletedMessage);
      } else {
        r := NotFound;
      }
    }
  }

  /** Two deletes of the same identifier in a row: the second finds nothing,
      and a get of that identifier afterwards answers NotFound. */
  method DeleteTwice(s: Store, id: int) returns (first: Reply<string>, second: Reply<string>, after: Reply<Record>)
    modifies s
    ensures first.Ok? <==> HasId(old(s.data), id)
    ensures second == NotFound
    ensures after == NotFound
    ensures s.data == Without(old(s.data), id)
  {
    first := s.Delete(id);
    second := s.Delete(id);
    after := s.Get(id);
  }

  /** A store that only create and delete have changed keeps its records
      in increasing order of identifier, so its identifiers are unique. */
  method CreateThenDelete(s: Store, body: Record, id: int) returns (created: Record, deleted: Reply<string>)
    requires IdsIncreasing(s.data)
    modifies s
    ensures IdsIncreasing(s.data) && IdsUnique(s.data)
    ensures created.id == NextId(old(s.data))
  {
    ghost var before := s.data;
    created := s.Create(body);
    AppendNextKeepsIdsIncreasing(before, created);
    ghost var middle := s.data;
    deleted := s.Delete(id);
    WithoutKeepsIdsIncreasing(middle, id);
    IncreasingIdsAreUnique(s.data);
  }

  /** A session against an empty data file: two creates get identifiers 1
      and 2, a get finds the first, deleting it succeeds, a second get
      answers NotFound and the list holds only the record with identifier 2;
      an update of identifier 2 then stores the body verbatim. */
  method ExampleSession() returns (listed: seq<Record>, fetched: Reply<Record>)
    ensures |listed| == 1 && listed[0].id == 2
    ensures fetched == Ok(Record(2, "B", 50.0, "F", "Math"))
  {
    var s := new Store();
    var a := s.Create(Record(0, "A", 90.0, "A", "CS"));
    assert a.id == 1;
    var b := s.Create(Record(0, "B", 75.0, "B", "CS"));
    assert b.id == 2;
    var g := s.Get(1);
    assert s.data[0].id == 1;
    assert g.Ok? && g.value == a;
    var d := s.Delete(1);
    assert d == Ok(DeletedMessage);
    g := s.Get(1);
    assert g == NotFound;
    listed := s.List();
    var u := s.Update(2, Record(2, "B", 50.0, "F", "Math"));
    assert u.Ok?;
    fetched := s.Get(2);
  }
}
