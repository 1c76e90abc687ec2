/**
 * The report record and the operations on the stored collection: append on
 * create, replace-by-id on edit (`map`), remove-by-id on delete (`filter`) and
 * the first-match lookup (`find`).
 */
module Reports {
  import opened Wrappers
  import opened Sequences

  /** `valuation.metrics` of a saved record. */
  datatype Metrics = Metrics(targetPrice: string, upside: string, recommendation: string)

  /**
   * A saved record: the form's fields spread into it, then `id`, the three
   * attachment slots and `valuation` set explicitly. The metric fields are kept
   * both flat (from the spread) and under `valuation`.
   */
  datatype Report = Report(
    id: int,
    title: string,
    ticker: string,
    description: string,
    sector: string,
    date: string,
    methodology: string,
    recommendation: string,
    targetPrice: string,
    upside: string,
    pdfUrl: string,
    excelUrl: string,
    logoUrl: string,
    valuation: Metrics)

  /** The flat metric fields and `valuation.metrics` agree. */
  predicate MetricsMirrored(r: Report) {
    r.valuation == Metrics(r.targetPrice, r.upside, r.recommendation)
  }

  predicate HasId(rs: seq<Report>, id: int) {
    exists i :: 0 <= i < |rs| && rs[i].id == id
  }

  predicate UniqueIds(rs: seq<Report>) {
    forall i, j :: 0 <= i < j < |rs| ==> rs[i].id != rs[j].id
  }

  /**
   * The collection read from storage: `JSON.parse(getItem(key) || '[]')`, or
   * the empty initial state when nothing is stored.
   */
  function Load(saved: Option<seq<Report>>): (rs: seq<Report>)
    ensures saved.None? ==> rs == []
    ensures saved.Some? ==> rs == saved.value
  {
    saved.GetOr([])
  }

  /** `rs.map(x => x.id === id ? r : x)`: every record with the id is replaced, the rest kept in place. */
  function ReplaceById(rs: seq<Report>, id: int, r: Report): (out: seq<Report>)
    ensures |out| == |rs|
    ensures forall i :: 0 <= i < |rs| ==> out[i] == (if rs[i].id == id then r else rs[i])
    decreases |rs|
  {
    if rs == [] then []
    else [if rs[0].id == id then r else rs[0]] + ReplaceById(rs[1..], id, r)
  }

  /** `rs.filter(x => x.id !== id)`. */
  function RemoveById(rs: seq<Report>, id: int): (out: seq<Report>)
    ensures |out| <= |rs|
    ensures forall i :: 0 <= i < |out| ==> out[i].id != id
  {
    Keep(rs, (x: Report) => x.id != id)
  }

  /** The records with the given id, in order. */
  function WithId(rs: seq<Report>, id: int): seq<Report> {
    Keep(rs, (x: Report) => x.id == id)
  }

  /** `rs[i]` is the first record whose id is `id`. */
  ghost predicate FirstWithId(rs: seq<Report>, id: int, i: int) {
    0 <= i < |rs| && rs[i].id == id && forall j :: 0 <= j < i ==> rs[j].id != id
  }

  /** `rs.find(x => x.id === id)`: the first record with the id, if any. */
  function FindById(rs: seq<Report>, id: int): (found: Option<Report>)
    ensures found.None? <==> !HasId(rs, id)
    ensures found.Some? ==> exists i :: FirstWithId(rs, id, i) && rs[i] == found.value
    decreases |rs|
  {
    if rs == [] then None
    else if rs[0].id == id then
      assert FirstWithId(rs, id, 0);
      Some(rs[0])
    else
      var found := FindById(rs[1..], id);
      assert HasId(rs, id) ==> HasId(rs[1..], id) by {
        if HasId(rs, id) {
          var i :| 0 <= i < |rs| && rs[i].id == id;
          assert rs[1..][i - 1].id == id;
        }
      }
      assert found.Some? ==> exists i :: FirstWithId(rs, id, i) && rs[i] == found.value by {
        if found.Some? {
          var i :| FirstWithId(rs[1..], id, i) && rs[1..][i] == found.value;
          assert FirstWithId(rs, id, i + 1);
        }
      }
      found
  }

  /** In a collection with unique ids, looking a record's id up finds that record. */
  lemma FindUnique(rs: seq<Report>, r: Report)
    requires UniqueIds(rs) && r in rs
    ensures FindById(rs, r.id) == Some(r)
  {
    var k :| 0 <= k < |rs| && rs[k] == r;
    assert HasId(rs, r.id);
    var found := FindById(rs, r.id);
    var i :| FirstWithId(rs, r.id, i) && rs[i] == found.value;
    assert rs[k].id == r.id;
  }

  /**
   * Create: the new record goes at the end; everything before it is kept in
   * order; when its id is fresh the ids stay unique and looking it up finds it.
   */
  lemma AppendFresh(rs: seq<Report>, r: Report)
    requires UniqueIds(rs) && !HasId(rs, r.id)
    ensures |rs + [r]| == |rs| + 1 && (rs + [r])[..|rs|] == rs
    ensures UniqueIds(rs + [r])
    ensures FindById(rs + [r], r.id) == Some(r)
  {
    assert forall i :: 0 <= i < |rs| ==> (rs + [r])[i] == rs[i];
    FindUnique(rs + [r], r);
  }

  /** Replacing by an id that no record has leaves the collection as it was. */
  lemma ReplaceAbsent(rs: seq<Report>, id: int, r: Report)
    requires !HasId(rs, id)
    ensures ReplaceById(rs, id, r) == rs
  {
    var out := ReplaceById(rs, id, r);
    assert forall i :: 0 <= i < |rs| ==> out[i] == rs[i];
  }

  /**
   * Edit: a replacement that keeps the id keeps the ids unique, and looking
   * the id up afterwards finds the replacement.
   */
  lemma ReplaceKeepsId(rs: seq<Report>, r: Report)
    requires UniqueIds(rs) && HasId(rs, r.id)
    ensures UniqueIds(ReplaceById(rs, r.id, r))
    ensures FindById(ReplaceById(rs, r.id, r), r.id) == Some(r)
  {
    var out := ReplaceById(rs, r.id, r);
    assert forall i :: 0 <= i < |rs| ==> out[i].id == rs[i].id;
    var k :| 0 <= k < |rs| && rs[k].id == r.id;
    assert out[k] == r;
    FindUnique(out, r);
  }

  /**
   * Delete: exactly the records with the id are gone, every other record is
   * kept as often as it occurred and in its original order.
   */
  lemma RemoveSpec(rs: seq<Report>, id: int)
    ensures forall x :: x in RemoveById(rs, id) <==> x in rs && x.id != id
    ensures forall x :: multiset(RemoveById(rs, id))[x] == if x.id != id then multiset(rs)[x] else 0
    ensures Subsequence(RemoveById(rs, id), rs)
    ensures |RemoveById(rs, id)| == |rs| - |WithId(rs, id)|
    ensures FindById(RemoveById(rs, id), id) == None
  {
    var p := (x: Report) => x.id != id;
    forall x ensures x in RemoveById(rs, id) <==> x in rs && x.id != id {
      KeepMembers(rs, p, x);
    }
    forall x ensures multiset(RemoveById(rs, id))[x] == if x.id != id then multiset(rs)[x] else 0 {
      KeepCount(rs, p, x);
    }
    KeepSubsequence(rs, p);
    KeepSplit(rs, id);
  }

  /** Every record either stays or is removed. */
  lemma {:induction false} KeepSplit(rs: seq<Report>, id: int)
    ensures |RemoveById(rs, id)| + |WithId(rs, id)| == |rs|
    decreases |rs|
  {
    if rs != [] {
      KeepSplit(rs[1..], id);
    }
  }

  /** Deleting an id that no record has leaves the collection as it was. */
  lemma RemoveAbsent(rs: seq<Report>, id: int)
    requires !HasId(rs, id)
    ensures RemoveById(rs, id) == rs
  {
    KeepAll(rs, (x: Report) => x.id != id);
  }

  /** With unique ids, deleting a present id shortens the collection by exactly one. */
  lemma {:induction false} RemoveUnique(rs: seq<Report>, id: int)
    requires UniqueIds(rs) && HasId(rs, id)
    ensures |RemoveById(rs, id)| == |rs| - 1
    ensures UniqueIds(RemoveById(rs, id))
    decreases |rs|
  {
    KeepUnique(rs, (x: Report) => x.id != id);
    if rs[0].id == id {
      assert !HasId(rs[1..], id) by {
        forall i | 0 <= i < |rs[1..]| ensures rs[1..][i].id != id {
          assert rs[1..][i] == rs[i + 1];
        }
      }
      RemoveAbsent(rs[1..], id);
    } else {
      var i :| 0 <= i < |rs| && rs[i].id == id;
      assert rs[1..][i - 1].id == id;
      RemoveUnique(rs[1..], id);
    }
  }

  /** Filtering a collection with unique ids leaves the ids unique. */
  lemma {:induction false} KeepUnique(rs: seq<Report>, p: Report -> bool)
    requires UniqueIds(rs)
    ensures UniqueIds(Keep(rs, p))
    decreases |rs|
  {
    if rs != [] {
      KeepUnique(rs[1..], p);
      var tail := Keep(rs[1..], p);
      forall j | 0 <= j < |tail| ensures tail[j].id != rs[0].id {
        KeepMembers(rs[1..], p, tail[j]);
        var k :| 0 <= k < |rs[1..]| && rs[1..][k] == tail[j];
        assert rs[k + 1] == tail[j];
      }
    }
  }
}
