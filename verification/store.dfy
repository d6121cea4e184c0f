/** The `tasks` collection as a map from id to document, and the two write
    shapes the handlers use: `$set` on one document and the positional
    loop `for i, id in enumerate(ids): update_one(...)`. */
module Store {
  import opened Py
  import opened ObjectIds

  /** Every stored task by id; a document never holds `_id` itself. */
  type Store = map<ObjectId, Doc>

  /** `update_one({"_id": id}, {"$set": fields})` without upsert: the
      matching document gets `fields` merged in, and nothing happens when
      no document matches. */
  function SetFields(store: Store, id: ObjectId, fields: Doc): (r: Store)
    ensures r.Keys == store.Keys
    ensures id in store ==> r[id].Keys == store[id].Keys + fields.Keys
    ensures id in store ==> forall k :: k in fields ==> r[id][k] == fields[k]
    ensures id in store ==> forall k :: k in store[id] && k !in fields ==> r[id][k] == store[id][k]
    ensures forall other :: other in store && other != id ==> r[other] == store[other]
  {
    if id in store then store[id := store[id] + fields] else store
  }

  /** The `$set` document of the i-th loop step: `{"order": i}` plus `extra`. */
  function PositionFields(extra: Doc, position: int): (f: Doc)
    ensures f.Keys == extra.Keys + {"order"}
    ensures "order" in f && f["order"] == Num(position)
  {
    extra["order" := Num(position)]
  }

  /** Two `$set`s with the same keys: the later one is all that shows. */
  lemma SetTwiceSameKeys(d: Doc, f: Doc, g: Doc)
    requires f.Keys == g.Keys
    ensures d + f + g == d + g
  {
  }

  /** `for i, ref in enumerate(refs, start): update_one({"_id": ref},
      {"$set": PositionFields(extra, i)})`. A `Fresh` id matches nothing. */
  function AssignPositions(store: Store, refs: seq<IdRef>, extra: Doc, start: int): (r: Store)
    ensures r.Keys == store.Keys
    decreases |refs|
  {
    if refs == [] then store
    else
      AssignPositions(AssignStep(store, refs[0], extra, start), refs[1..], extra, start + 1)
  }

  /** Index `i` is the last place `ref` occurs in `refs`. */
  predicate IsLastIndex(refs: seq<IdRef>, i: int, ref: IdRef) {
    0 <= i < |refs| && refs[i] == ref && forall j :: i < j < |refs| ==> refs[j] != ref
  }

  /** One loop step followed by the rest of the loop. */
  function AssignStep(store: Store, ref: IdRef, extra: Doc, position: int): Store {
    match ref
    case Existing(id) => SetFields(store, id, PositionFields(extra, position))
    case Fresh => store
  }

  lemma AssignPositionsUnfold(store: Store, refs: seq<IdRef>, extra: Doc, start: int)
    requires refs != []
    ensures AssignPositions(store, refs, extra, start)
            == AssignPositions(AssignStep(store, refs[0], extra, start), refs[1..], extra, start + 1)
  {
  }

  /** A task the loop never names keeps its document. */
  lemma {:induction false} AssignPositionsUnlisted(store: Store, refs: seq<IdRef>, extra: Doc, start: int, id: ObjectId)
    requires id in store && Existing(id) !in refs
    ensures AssignPositions(store, refs, extra, start)[id] == store[id]
    decreases |refs|
  {
    if refs != [] {
      AssignPositionsUnfold(store, refs, extra, start);
      assert Existing(id) !in refs[1..];
      AssignPositionsUnlisted(AssignStep(store, refs[0], extra, start), refs[1..], extra, start + 1, id);
    }
  }

  /** A task the loop names ends up with the fields of the step at its
      last occurrence on top of what it had. */
  lemma {:induction false} AssignPositionsLastWins(store: Store, refs: seq<IdRef>, extra: Doc, start: int, id: ObjectId, i: int)
    requires id in store && IsLastIndex(refs, i, Existing(id))
    ensures AssignPositions(store, refs, extra, start)[id] == store[id] + PositionFields(extra, start + i)
    decreases |refs|
  {
    AssignPositionsUnfold(store, refs, extra, start);
    var next := AssignStep(store, refs[0], extra, start);
    if i == 0 {
      assert Existing(id) !in refs[1..] by {
        forall j | 0 <= j < |refs| - 1
          ensures refs[1..][j] != Existing(id)
        {
          assert refs[1..][j] == refs[j + 1];
        }
      }
      AssignPositionsUnlisted(next, refs[1..], extra, start + 1, id);
    } else {
      assert IsLastIndex(refs[1..], i - 1, Existing(id));
      AssignPositionsLastWins(next, refs[1..], extra, start + 1, id, i - 1);
      if refs[0] == Existing(id) {
        SetTwiceSameKeys(store[id], PositionFields(extra, start), PositionFields(extra, start + i));
      }
    }
  }

  /** The loop's effect on every task at once: a listed task gets the
      fields of the step at its last occurrence, any other task keeps its
      document, and no task is created or removed. */
  lemma AssignPositionsEffect(store: Store, refs: seq<IdRef>, extra: Doc, start: int)
    ensures AssignPositions(store, refs, extra, start).Keys == store.Keys
    ensures forall id :: id in store && Existing(id) !in refs ==>
              AssignPositions(store, refs, extra, start)[id] == store[id]
    ensures forall id, i :: id in store && IsLastIndex(refs, i, Existing(id)) ==>
              AssignPositions(store, refs, extra, start)[id] == store[id] + PositionFields(extra, start + i)
  {
    forall id | id in store && Existing(id) !in refs
      ensures AssignPositions(store, refs, extra, start)[id] == store[id]
    {
      AssignPositionsUnlisted(store, refs, extra, start, id);
    }
    forall id, i | id in store && IsLastIndex(refs, i, Existing(id))
      ensures AssignPositions(store, refs, extra, start)[id] == store[id] + PositionFields(extra, start + i)
    {
      AssignPositionsLastWins(store, refs, extra, start, id, i);
    }
  }

  /** The existing ids `ids`, as the loop receives them. */
  function Refs(ids: seq<ObjectId>): (refs: seq<IdRef>)
    ensures |refs| == |ids|
    ensures forall i :: 0 <= i < |ids| ==> refs[i] == Existing(ids[i])
  {
    seq(|ids|, i requires 0 <= i < |ids| => Existing(ids[i]))
  }

  /** Over a list without repetitions, every listed task gets the fields
      of its own position. */
  lemma AssignDistinct(store: Store, ids: seq<ObjectId>, extra: Doc)
    requires forall i :: 0 <= i < |ids| ==> ids[i] in store
    requires forall i, j :: 0 <= i < j < |ids| ==> ids[i] != ids[j]
    ensures forall i :: 0 <= i < |ids| ==>
              AssignPositions(store, Refs(ids), extra, 0)[ids[i]] == store[ids[i]] + PositionFields(extra, i)
  {
    var refs := Refs(ids);
    forall i | 0 <= i < |ids|
      ensures AssignPositions(store, refs, extra, 0)[ids[i]] == store[ids[i]] + PositionFields(extra, i)
    {
      assert IsLastIndex(refs, i, Existing(ids[i]));
      AssignPositionsLastWins(store, refs, extra, 0, ids[i], i);
    }
  }

  /** An element of a list has a last occurrence. */
  lemma {:induction false} LastIndexExists(refs: seq<IdRef>, ref: IdRef) returns (i: int)
    requires ref in refs
    ensures IsLastIndex(refs, i, ref)
  {
    var k := |refs| - 1;
    if refs[k] == ref {
      i := k;
    } else {
      assert ref in refs[..k] by {
        var j :| 0 <= j < |refs| && refs[j] == ref;
        assert refs[..k][j] == ref;
      }
      i := LastIndexExists(refs[..k], ref);
    }
  }

  /** The loop writes `order` and the keys of `extra`, and no other field. */
  lemma AssignKeepsOtherFields(store: Store, refs: seq<IdRef>, extra: Doc, start: int, id: ObjectId, k: string)
    requires id in store && k != "order" && k !in extra
    ensures k in AssignPositions(store, refs, extra, start)[id] <==> k in store[id]
    ensures k in store[id] ==> AssignPositions(store, refs, extra, start)[id][k] == store[id][k]
  {
    if Existing(id) in refs {
      var i := LastIndexExists(refs, Existing(id));
      AssignPositionsLastWins(store, refs, extra, start, id, i);
    } else {
      AssignPositionsUnlisted(store, refs, extra, start, id);
    }
  }
}
