/** The list logic inside the record handlers: the first-match scans of get and
    update, the id rule of create and the filter of delete. Each is a function
    on the ordered list of records the handler loaded; the lemmas state what
    the handlers promise about them. */
module RecordList {
  import opened Records

  /** Some stored record carries identifier `id`. */
  ghost predicate HasId(data: seq<Record>, id: int) {
    exists i :: 0 <= i < |data| && data[i].id == id
  }

  /** Slot `k` is the first slot whose record carries identifier `id`. */
  ghost predicate IsFirstMatch(data: seq<Record>, id: int, k: int) {
    && 0 <= k < |data|
    && data[k].id == id
    && forall j :: 0 <= j < k ==> data[j].id != id
  }

  /** No two slots hold records with the same identifier. */
  ghost predicate IdsUnique(data: seq<Record>) {
    forall i, j :: 0 <= i < j < |data| ==> data[i].id != data[j].id
  }

  /** Identifiers grow strictly from the first slot to the last. */
  ghost predicate IdsIncreasing(data: seq<Record>) {
    forall i, j :: 0 <= i < j < |data| ==> data[i].id < data[j].id
  }

  // ---------------------------------------------------------------------------
  // First match (get and update)
  // ---------------------------------------------------------------------------

  /** The position of the first stored record carrying `id`, or None: the
      linear scan the update handler runs over the enumerated list. */
  function FirstIndex(data: seq<Record>, id: int): (r: Option<nat>)
    ensures r.Some? ==> IsFirstMatch(data, id, r.value)
    ensures r.None? <==> !HasId(data, id)
  {
    if data == [] then None
    else if data[0].id == id then Some(0)
    else
      match FirstIndex(data[1..], id)
      case None =>
        assert forall i :: 0 < i < |data| ==> data[i] == data[1..][i - 1];
        None
      case Some(k) => Some(k + 1)
  }

  /** The first stored record carrying `id`, or NotFound: the linear scan of
      the get handler. */
  function Lookup(data: seq<Record>, id: int): (r: Reply<Record>)
    ensures r.NotFound? <==> !HasId(data, id)
    ensures r.Ok? ==> r.value.id == id
    ensures r.Ok? ==> exists k :: IsFirstMatch(data, id, k) && data[k] == r.value
  {
    if data == [] then NotFound
    else if data[0].id == id then Ok(data[0])
    else
      var r := Lookup(data[1..], id);
      assert forall i :: 0 < i < |data| ==> data[i] == data[1..][i - 1];
      assert r.Ok? ==> exists k :: IsFirstMatch(data, id, k) && data[k] == r.value by {
        if r.Ok? {
          var k :| IsFirstMatch(data[1..], id, k) && data[1..][k] == r.value;
          assert IsFirstMatch(data, id, k + 1);
        }
      }
      r
  }

  /** The first match is the only slot with that property, so get answers
      with exactly the record at that slot. */
  lemma FirstMatchUnique(data: seq<Record>, id: int, k: int, k': int)
    requires IsFirstMatch(data, id, k) && IsFirstMatch(data, id, k')
    ensures k == k'
  {
  }

  /** The scan of get and the scan of update land on the same slot: get
      answers with the record in the slot update would overwrite, and both
      miss together. The two scans are defined separately; they agree
      because each finds the first match, and the first match is unique. */
  lemma LookupIsFirstIndex(data: seq<Record>, id: int)
    ensures FirstIndex(data, id).Some? ==> Lookup(data, id) == Ok(data[FirstIndex(data, id).value])
    ensures FirstIndex(data, id).None? ==> Lookup(data, id) == NotFound
  {
    if FirstIndex(data, id).Some? {
      var k := FirstIndex(data, id).value;
      var w :| IsFirstMatch(data, id, w) && data[w] == Lookup(data, id).value;
      FirstMatchUnique(data, id, k, w);
    }
  }

  // ---------------------------------------------------------------------------
  // The id rule (create)
  // ---------------------------------------------------------------------------

  /** The largest stored identifier of a non-empty list. */
  function MaxId(data: seq<Record>): (m: int)
    requires data != []
    ensures HasId(data, m)
    ensures forall i :: 0 <= i < |data| ==> data[i].id <= m
  {
    if |data| == 1 then data[0].id
    else
      var rest := MaxId(data[1..]);
      assert forall i :: 1 <= i < |data| ==> data[i] == data[1..][i - 1];
      if data[0].id < rest then rest else data[0].id
  }

  /** The identifier create assigns: 1 for an empty store, otherwise one more
      than the largest stored identifier. */
  function NextId(data: seq<Record>): (r: int)
    ensures data == [] ==> r == 1
    ensures data != [] ==> HasId(data, r - 1)
    ensures forall i :: 0 <= i < |data| ==> data[i].id < r
  {
    if data == [] then 1 else MaxId(data) + 1
  }

  /** For a non-empty store the assigned identifier is the least integer
      above every stored one: create skips no identifier. */
  lemma NextIdIsLeastFresh(data: seq<Record>, n: int)
    requires data != []
    requires forall i :: 0 <= i < |data| ==> data[i].id < n
    ensures NextId(data) <= n
  {
  }

  /** Appending a record with the assigned identifier keeps identifiers
      unique. */
  lemma AppendNextKeepsIdsUnique(data: seq<Record>, rec: Record)
    requires IdsUnique(data)
    requires rec.id == NextId(data)
    ensures IdsUnique(data + [rec])
  {
  }

  /** Appending a record with the assigned identifier keeps identifiers in
      increasing order: a store changed only by create lists its records
      in the order of their identifiers. */
  lemma AppendNextKeepsIdsIncreasing(data: seq<Record>, rec: Record)
    requires IdsIncreasing(data)
    requires rec.id == NextId(data)
    ensures IdsIncreasing(data + [rec])
  {
  }

  /** A get of the identifier create just assigned finds the created record
      at the end of the list. */
  lemma AppendNextThenLookup(data: seq<Record>, rec: Record)
    requires rec.id == NextId(data)
    ensures FirstIndex(data + [rec], rec.id) == Some(|data|)
    ensures Lookup(data + [rec], rec.id) == Ok(rec)
  {
    var d := data + [rec];
    assert forall j :: 0 <= j < |data| ==> d[j] == data[j];
    assert IsFirstMatch(d, rec.id, |data|);
    FirstMatchUnique(d, rec.id, |data|, FirstIndex(d, rec.id).value);
  }

  /** Increasing identifiers are unique identifiers. */
  lemma IncreasingIdsAreUnique(data: seq<Record>)
    requires IdsIncreasing(data)
    ensures IdsUnique(data)
  {
  }

  // ---------------------------------------------------------------------------
  // Replacement (update)
  // ---------------------------------------------------------------------------

  /** After update has put `body` in the first slot matching `id`, get of the
      body's identifier finds the body whenever the body keeps that
      identifier. */
  lemma ReplaceThenLookup(data: seq<Record>, id: int, body: Record)
    requires FirstIndex(data, id).Some?
    requires body.id == id
    ensures Lookup(data[FirstIndex(data, id).value := body], id) == Ok(body)
  {
    var k := FirstIndex(data, id).value;
    var d := data[k := body];
    assert IsFirstMatch(d, id, k);
    var k' := FirstIndex(d, id).value;
    FirstMatchUnique(d, id, k, k');
  }

  /** Update does not reconcile the body's identifier with the path's: a body
      carrying the identifier of another stored record leaves two slots with
      that identifier, so the store's identifiers are no longer unique. */
  lemma ReplaceCanDuplicateIds(data: seq<Record>, id: int, body: Record, j: int)
    requires FirstIndex(data, id).Some?
    requires 0 <= j < |data| && j != FirstIndex(data, id).value
    requires body.id == data[j].id
    ensures !IdsUnique(data[FirstIndex(data, id).value := body])
  {
    var k := FirstIndex(data, id).value;
    var d := data[k := body];
    if j < k {
      assert d[j].id == d[k].id;
    } else {
      assert d[k].id == d[j].id;
    }
  }

  // ---------------------------------------------------------------------------
  // Filter (delete)
  // ---------------------------------------------------------------------------

  /** The list without any record carrying `id`, the survivors in their
      stored order: the comprehension of the delete handler. */
  function Without(data: seq<Record>, id: int): (r: seq<Record>)
    ensures |r| <= |data|
    ensures !HasId(r, id)
    ensures multiset(r) <= multiset(data)
  {
    if data == [] then []
    else
      assert data == [data[0]] + data[1..];
      var rest := Without(data[1..], id);
      if data[0].id == id then rest else [data[0]] + rest
  }

  /** The filter is a homomorphism of concatenation: it never reorders
      records, it only drops some. */
  lemma {:induction false} WithoutAppend(a: seq<Record>, b: seq<Record>, id: int)
    ensures Without(a + b, id) == Without(a, id) + Without(b, id)
  {
    if a == [] {
      assert a + b == b;
    } else {
      assert (a + b)[1..] == a[1..] + b;
      WithoutAppend(a[1..], b, id);
    }
  }

  /** On a single record the filter keeps it exactly when its identifier is
      not the deleted one; with WithoutAppend this fixes the filter on every
      list, survivors in their original order. */
  lemma WithoutSingle(rec: Record, id: int)
    ensures Without([rec], id) == if rec.id == id then [] else [rec]
  {
  }

  /** Every record of another identifier survives the filter as often as it
      was stored. */
  lemma {:induction false} WithoutKeepsOthers(data: seq<Record>, id: int, rec: Record)
    requires rec.id != id
    ensures multiset(Without(data, id))[rec] == multiset(data)[rec]
  {
    if data != [] {
      assert data == [data[0]] + data[1..];
      WithoutKeepsOthers(data[1..], id, rec);
    }
  }

  /** The filter makes the list shorter exactly when some stored record
      carries the identifier: the condition under which delete succeeds. */
  lemma {:induction false} WithoutShrinksIff(data: seq<Record>, id: int)
    ensures |Without(data, id)| < |data| <==> HasId(data, id)
    ensures !HasId(data, id) ==> Without(data, id) == data
  {
    if data != [] {
      WithoutShrinksIff(data[1..], id);
      if data[0].id != id {
        assert HasId(data, id) ==> HasId(data[1..], id) by {
          if HasId(data, id) {
            var i :| 0 <= i < |data| && data[i].id == id;
            assert data[1..][i - 1] == data[i];
          }
        }
        assert HasId(data[1..], id) ==> HasId(data, id) by {
          if HasId(data[1..], id) {
            var i :| 0 <= i < |data[1..]| && data[1..][i].id == id;
            assert data[i + 1] == data[1..][i];
          }
        }
        assert data == [data[0]] + data[1..];
      } else {
        assert data[0].id == id;
      }
    }
  }

  /** Deleting again removes nothing: the filtered list no longer holds the
      identifier, and filtering it again yields it unchanged. */
  lemma {:induction false} WithoutIdempotent(data: seq<Record>, id: int)
    ensures Without(Without(data, id), id) == Without(data, id)
    ensures |Without(Without(data, id), id)| == |Without(data, id)|
  {
    WithoutShrinksIff(Without(data, id), id);
  }

  /** The filter keeps identifiers in increasing order. */
  lemma {:induction false} WithoutKeepsIdsIncreasing(data: seq<Record>, id: int)
    requires IdsIncreasing(data)
    ensures IdsIncreasing(Without(data, id))
  {
    if data != [] {
      var tail := data[1..];
      assert IdsIncreasing(tail) by {
        forall i, j | 0 <= i < j < |tail| ensures tail[i].id < tail[j].id {
          assert tail[i] == data[i + 1] && tail[j] == data[j + 1];
        }
      }
      WithoutKeepsIdsIncreasing(tail, id);
      var rest := Without(tail, id);
      if data[0].id != id {
        forall j | 0 <= j < |rest| ensures data[0].id < rest[j].id {
          assert rest[j] in multiset(rest);
          assert rest[j] in multiset(tail);
          var m :| 0 <= m < |tail| && tail[m] == rest[j];
          assert tail[m] == data[m + 1];
        }
        var r := [data[0]] + rest;
        forall i, j | 0 <= i < j < |r| ensures r[i].id < r[j].id {
          if i == 0 {
            assert r[j] == rest[j - 1];
          } else {
            assert r[i] == rest[i - 1] && r[j] == rest[j - 1];
          }
        }
      }
    }
  }

  /** The filter keeps identifiers unique. */
  lemma {:induction false} WithoutKeepsIdsUnique(data: seq<Record>, id: int)
    requires IdsUnique(data)
    ensures IdsUnique(Without(data, id))
  {
    if data != [] {
      var tail := data[1..];
      assert IdsUnique(tail) by {
        forall i, j | 0 <= i < j < |tail| ensures tail[i].id != tail[j].id {
          assert tail[i] == data[i + 1] && tail[j] == data[j + 1];
        }
      }
      WithoutKeepsIdsUnique(tail, id);
      var rest := Without(tail, id);
      if data[0].id != id {
        forall j | 0 <= j < |rest| ensures data[0].id != rest[j].id {
          assert rest[j] in multiset(rest);
          assert rest[j] in multiset(tail);
          var m :| 0 <= m < |tail| && tail[m] == rest[j];
          assert tail[m] == data[m + 1];
        }
        var r := [data[0]] + rest;
        forall i, j | 0 <= i < j < |r| ensures r[i].id != r[j].id {
          if i == 0 {
            assert r[j] == rest[j - 1];
          } else {
            assert r[i] == rest[i - 1] && r[j] == rest[j - 1];
          }
        }
      }
    }
  }
}
