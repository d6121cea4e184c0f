/** The request handlers of the task API as functions from a request and
    the collection's contents to a response and the new contents. The
    current time, today's date, the id of a new document and the order in
    which the collection yields documents are parameters. */
module Routes {
  import opened Py
  import opened ObjectIds
  import opened Schemas
  import opened Db
  import opened Ordering
  import opened Dates
  import opened Store

  /** The `{"error": ...}` texts of the JSON endpoints. */
  datatype Failure = InvalidId | NotFound | IdsNotList | BadIdInList {
    function Text(): string {
      match this
      case InvalidId => "invalid id"
      case NotFound => "not found"
      case IdsNotList => "ids must be a non-empty list"
      case BadIdInList => "bad id in list"  // followed by the exception's text
    }
  }

  /** What a handler sends back. */
  datatype Body =
    | TaskJson(task: Doc)                // a serialized task
    | TaskListJson(tasks: seq<Doc>)      // a list of serialized tasks
    | ErrorsJson(errors: seq<Message>)   // {"errors": [...]}
    | ErrorJson(failure: Failure)        // {"error": "..."}
    | OkJson                             // {"ok": true}
    | SeededJson(updated: nat)           // {"ok": true, "updated": n}
    | ServerErrorJson                    // {"error": "server_error", "detail": ...}
    | DetailPage(task: Doc, overdue: bool)
    | NotFoundPage                       // abort(404)
    | InternalErrorPage                  // an exception no handler code catches

  datatype Response = Response(status: int, body: Body)

  datatype Outcome = Outcome(response: Response, store: Store)

  // ---------------------------------------------------------------------
  // Listing order
  // ---------------------------------------------------------------------

  /** `natural` names every stored task exactly once: the order in which
      the collection yields documents before sorting. */
  predicate IsEnumeration(natural: seq<ObjectId>, store: Store) {
    && (forall i :: 0 <= i < |natural| ==> natural[i] in store)
    && (forall id :: id in store ==> id in natural)
    && (forall i, j :: 0 <= i < j < |natural| ==> natural[i] != natural[j])
  }

  /** `.sort([("order", 1), ("created_at", 1)])` of the task list. */
  const ListFields: seq<string> := ["order", "created_at"]

  /** `.sort("created_at", 1)` of the one-off order seeding. */
  const SeedFields: seq<string> := ["created_at"]

  function KeysOf(store: Store, fields: seq<string>): (keys: Keys)
    ensures keys.Keys == store.Keys
    ensures forall id :: id in store ==> keys[id] == SortKey(store[id], fields)
  {
    map id | id in store :: SortKey(store[id], fields)
  }

  /** `find().sort(fields)`: the stored ids in ascending order of the
      documents' sort keys. */
  function SortedIds(natural: seq<ObjectId>, store: Store, fields: seq<string>): (r: seq<ObjectId>)
    requires forall i :: 0 <= i < |natural| ==> natural[i] in store
    ensures multiset(r) == multiset(natural)
    ensures |r| == |natural|
    ensures forall i :: 0 <= i < |r| ==> r[i] in store
    ensures forall i, j :: 0 <= i < j < |r| ==>
              KeyCmp(SortKey(store[r[i]], fields), SortKey(store[r[j]], fields)) <= 0
  {
    var keys := KeysOf(store, fields);
    SortIdsSorted(natural, keys);
    var r := SortIds(natural, keys);
    assert |r| == |multiset(r)| == |multiset(natural)| == |natural|;
    r
  }

  /** `[serialize(d) for d in docs]`: every document serialized, or the
      first exception. */
  function SerializeAll(ids: seq<ObjectId>, store: Store): (r: Result<seq<Doc>>)
    requires forall i :: 0 <= i < |ids| ==> ids[i] in store
    ensures r.Ok? <==> forall i :: 0 <= i < |ids| ==> "title" in store[ids[i]]
    ensures r.Ok? ==> |r.value| == |ids|
    ensures r.Ok? ==> forall i :: 0 <= i < |ids| ==> Serialize(ids[i], store[ids[i]]) == Ok(r.value[i])
  {
    if ids == [] then Ok([])
    else
      match Serialize(ids[0], store[ids[0]])
      case Raised(fault) => Raised(fault)
      case Ok(first) =>
        match SerializeAll(ids[1..], store)
        case Raised(fault) => Raised(fault)
        case Ok(rest) => Ok([first] + rest)
  }

  /** The reply of the list handler for a given listing. */
  function ListResponse(ids: seq<ObjectId>, store: Store): (r: Response)
    requires forall i :: 0 <= i < |ids| ==> ids[i] in store
    ensures r.status == 200 <==> forall i :: 0 <= i < |ids| ==> "title" in store[ids[i]]
    ensures r.status != 200 ==> r == Response(500, ServerErrorJson)
    ensures r.status == 200 ==>
              && r.body.TaskListJson?
              && |r.body.tasks| == |ids|
              && forall i :: 0 <= i < |ids| ==> Serialize(ids[i], store[ids[i]]) == Ok(r.body.tasks[i])
  {
    match SerializeAll(ids, store)
    case Raised(_) => Response(500, ServerErrorJson)
    case Ok(tasks) => Response(200, TaskListJson(tasks))
  }

  // ---------------------------------------------------------------------
  // Handlers
  // ---------------------------------------------------------------------

  /** GET /api/tasks. Any exception, such as a document without a title,
      becomes a server error. */
  function ListTasks(natural: seq<ObjectId>, store: Store): (r: Outcome)
    requires IsEnumeration(natural, store)
    ensures r.store == store
    ensures r.response.status == 200 <==> forall id :: id in store ==> "title" in store[id]
    ensures r.response.status != 200 ==> r.response == Response(500, ServerErrorJson)
    ensures r.response.status == 200 ==>
              && r.response.body.TaskListJson?
              && |r.response.body.tasks| == |natural|
              && var ids := SortedIds(natural, store, ListFields);
                 forall i :: 0 <= i < |ids| ==> Serialize(ids[i], store[ids[i]]) == Ok(r.response.body.tasks[i])
  {
    var ids := SortedIds(natural, store, ListFields);
    ListedTitles(natural, store, ids);
    Outcome(ListResponse(ids, store), store)
  }

  /** A sorted listing names every stored task, so all its documents have
      titles exactly when all stored documents do. */
  lemma ListedTitles(natural: seq<ObjectId>, store: Store, ids: seq<ObjectId>)
    requires IsEnumeration(natural, store)
    requires multiset(ids) == multiset(natural)
    ensures (forall i :: 0 <= i < |ids| ==> ids[i] in store && "title" in store[ids[i]])
            <==> (forall id :: id in store ==> "title" in store[id])
  {
    forall id | id in store
      ensures id in ids
    {
      assert id in multiset(natural);
    }
    forall i | 0 <= i < |ids|
      ensures ids[i] in store
    {
      assert ids[i] in multiset(natural);
    }
  }

  /** The document `create_task` inserts: the validated fields, both
      timestamps set to `now`, and the submitted due date when it is
      truthy; never an `order`. */
  function NewDocument(data: Doc, payload: Doc, now: string): (d: Doc)
    requires data.Keys == TaskFields
    ensures d.Keys == TaskFields + {"created_at", "updated_at"}
                      + (if Truthy(Get(payload, "due_date", Null)) then {"due_date"} else {})
    ensures forall k :: k in data ==> k in d && d[k] == data[k]
    ensures "created_at" in d && d["created_at"] == Str(now)
    ensures "updated_at" in d && d["updated_at"] == Str(now)
    ensures "due_date" in d ==> "due_date" in payload && d["due_date"] == payload["due_date"]
    ensures "order" !in d
  {
    FieldNamesDistinct();
    var stamped := data["created_at" := Str(now)]["updated_at" := Str(now)];
    if Truthy(Get(payload, "due_date", Null)) then stamped["due_date" := payload["due_date"]] else stamped
  }

  /** POST /api/tasks, inserting under the fresh id `newId`. */
  function CreateTask(payload: Doc, now: string, newId: ObjectId, store: Store): (r: Outcome)
    requires newId !in store
    ensures ValidateCreate(payload).Failed? ==> r == Outcome(Response(500, InternalErrorPage), store)
    ensures ValidateCreate(payload).Invalid? ==>
              r == Outcome(Response(400, ErrorsJson(ValidateCreate(payload).errors)), store)
    ensures r.response.status == 201 <==> ValidateCreate(payload).Valid?
    // a created task is added and nothing else changes
    ensures r.response.status == 201 ==>
              r.store == store[newId := NewDocument(ValidateCreate(payload).doc, payload, now)]
    // the response is the stored task
    ensures r.response.status == 201 ==>
              && r.response.body.TaskJson?
              && newId in r.store
              && Serialize(newId, r.store[newId]) == Ok(r.response.body.task)
  {
    match ValidateCreate(payload)
    case Failed(_) => Outcome(Response(500, InternalErrorPage), store)
    case Invalid(errors) => Outcome(Response(400, ErrorsJson(errors)), store)
    case Valid(data) =>
      var doc := NewDocument(data, payload, now);
      var task := Serialize(newId, doc);
      Outcome(Response(201, TaskJson(task.value)), store[newId := doc])
  }

  /** `find_one_and_update({"_id": id}, {"$set": doc})` after
      `doc["updated_at"] = now`: the validated fields and a fresh timestamp
      land on the task, and nothing else changes. */
  function ApplyUpdate(store: Store, id: ObjectId, doc: Doc, now: string): (r: Store)
    requires id in store
    ensures r.Keys == store.Keys
    ensures forall other :: other in store && other != id ==> r[other] == store[other]
    ensures r[id].Keys == store[id].Keys + doc.Keys + {"updated_at"}
    ensures forall k :: k in doc && k != "updated_at" ==> r[id][k] == doc[k]
    ensures r[id]["updated_at"] == Str(now)
    ensures forall k :: k in store[id] && k !in doc && k != "updated_at" ==> r[id][k] == store[id][k]
  {
    SetFields(store, id, doc["updated_at" := Str(now)])
  }

  /** PATCH /api/tasks/<id>: validation first, then the id, then the
      lookup. The write happens before serialization, so a stored task
      without a title is updated and answered with an error. */
  function UpdateTask(idText: string, payload: Doc, now: string, store: Store): (r: Outcome)
    ensures ValidateUpdate(payload).Failed? ==> r == Outcome(Response(500, InternalErrorPage), store)
    ensures ValidateUpdate(payload).Invalid? ==>
              r == Outcome(Response(400, ErrorsJson(ValidateUpdate(payload).errors)), store)
    ensures ValidateUpdate(payload).Valid? && ToObjectId(idText).None? ==>
              r == Outcome(Response(400, ErrorJson(InvalidId)), store)
    ensures ValidateUpdate(payload).Valid? && ToObjectId(idText).Some? && ToObjectId(idText).value !in store ==>
              r == Outcome(Response(404, ErrorJson(NotFound)), store)
    // the write happens whenever the task exists, whatever the response
    ensures ValidateUpdate(payload).Valid? && ToObjectId(idText).Some? && ToObjectId(idText).value in store ==>
              r.store == ApplyUpdate(store, ToObjectId(idText).value, ValidateUpdate(payload).doc, now)
    // a found task is answered with its serialization, or with an error
    // page when it has no title
    ensures ValidateUpdate(payload).Valid? && ToObjectId(idText).Some? && ToObjectId(idText).value in store ==>
              && (r.response.status == 200 <==> "title" in r.store[ToObjectId(idText).value])
              && (r.response.status != 200 ==> r.response == Response(500, InternalErrorPage))
    ensures r.response.status == 200 ==>
              && r.response.body.TaskJson?
              && ToObjectId(idText).Some? && ToObjectId(idText).value in r.store
              && Serialize(ToObjectId(idText).value, r.store[ToObjectId(idText).value]) == Ok(r.response.body.task)
  {
    match ValidateUpdate(payload)
    case Failed(_) => Outcome(Response(500, InternalErrorPage), store)
    case Invalid(errors) => Outcome(Response(400, ErrorsJson(errors)), store)
    case Valid(doc) =>
      match ToObjectId(idText)
      case None => Outcome(Response(400, ErrorJson(InvalidId)), store)
      case Some(id) =>
        if id !in store then Outcome(Response(404, ErrorJson(NotFound)), store)
        else
          var updated := ApplyUpdate(store, id, doc, now);
          match Serialize(id, updated[id])
          case Raised(_) => Outcome(Response(500, InternalErrorPage), updated)
          case Ok(task) => Outcome(Response(200, TaskJson(task)), updated)
  }

  /** `data["ids"]` is a non-empty list whose every element `ObjectId(...)`
      accepts: null or a 24-digit hexadecimal string. */
  predicate IsIdList(ids: Value) {
    && ids.Arr?
    && ids.items != []
    && forall i :: 0 <= i < |ids.items| ==>
         ids.items[i].Null? || (ids.items[i].Str? && IsIdText(ids.items[i].s))
  }

  /** PATCH /api/tasks/reorder: every listed task gets its position in the
      list as `order` and a fresh `updated_at`. */
  function Reorder(data: Doc, now: string, store: Store): (r: Outcome)
    ensures r.response.status == 200 || r.response.status == 400
    ensures r.response.status == 200 <==> IsIdList(Get(data, "ids", Null))
    ensures r.response.status == 400 ==> r.store == store
    ensures (!Get(data, "ids", Null).Arr? || Get(data, "ids", Null).items == []) ==>
              r.response == Response(400, ErrorJson(IdsNotList))
    ensures r.response.status == 200 ==>
              && r.response.body == OkJson
              && ParseRefs(Get(data, "ids", Null).items).Some?
              && var refs := ParseRefs(Get(data, "ids", Null).items).value;
                 && r.store.Keys == store.Keys
                 && (forall id :: id in store && Existing(id) !in refs ==> r.store[id] == store[id])
                 && (forall id, i :: id in store && IsLastIndex(refs, i, Existing(id)) ==>
                       r.store[id] == store[id] + map["updated_at" := Str(now), "order" := Num(i)])
  {
    var ids := Get(data, "ids", Null);
    if !ids.Arr? || ids.items == [] then Outcome(Response(400, ErrorJson(IdsNotList)), store)
    else
      match ParseRefs(ids.items)
      case None => Outcome(Response(400, ErrorJson(BadIdInList)), store)
      case Some(refs) =>
        var extra := map["updated_at" := Str(now)];
        AssignPositionsEffect(store, refs, extra, 0);
        Outcome(Response(200, OkJson), AssignPositions(store, refs, extra, 0))
  }

  /** DELETE /api/tasks/<id>. */
  function DeleteTask(idText: string, store: Store): (r: Outcome)
    ensures ToObjectId(idText).None? ==> r == Outcome(Response(400, ErrorJson(InvalidId)), store)
    ensures ToObjectId(idText).Some? && ToObjectId(idText).value !in store ==>
              r == Outcome(Response(404, ErrorJson(NotFound)), store)
    ensures r.response.status == 200 <==> ToObjectId(idText).Some? && ToObjectId(idText).value in store
    ensures r.response.status == 200 ==>
              && r.response.body == OkJson
              && r.store.Keys == store.Keys - {ToObjectId(idText).value}
              && forall id :: id in r.store ==> r.store[id] == store[id]
  {
    match ToObjectId(idText)
    case None => Outcome(Response(400, ErrorJson(InvalidId)), store)
    case Some(id) =>
      if id !in store then Outcome(Response(404, ErrorJson(NotFound)), store)
      else Outcome(Response(200, OkJson), store - {id})
  }

  /** POST /admin/seed-order: numbers the tasks 0, 1, ... in order of
      creation time. */
  function SeedOrder(natural: seq<ObjectId>, store: Store): (r: Outcome)
    requires IsEnumeration(natural, store)
    ensures r.response == Response(200, SeededJson(|natural|))
    ensures r.store.Keys == store.Keys
    ensures var ids := SortedIds(natural, store, SeedFields);
            forall i :: 0 <= i < |ids| ==> r.store[ids[i]] == store[ids[i]]["order" := Num(i)]
  {
    var ids := SortedIds(natural, store, SeedFields);
    SortedIdsDistinct(natural, store, SeedFields);
    SeedPositions(store, ids);
    Outcome(Response(200, SeededJson(|natural|)), AssignPositions(store, Refs(ids), map[], 0))
  }

  lemma SeedPositions(store: Store, ids: seq<ObjectId>)
    requires forall i :: 0 <= i < |ids| ==> ids[i] in store
    requires forall i, j :: 0 <= i < j < |ids| ==> ids[i] != ids[j]
    ensures forall i :: 0 <= i < |ids| ==>
              AssignPositions(store, Refs(ids), map[], 0)[ids[i]] == store[ids[i]]["order" := Num(i)]
  {
    AssignDistinct(store, ids, map[]);
    forall i | 0 <= i < |ids|
      ensures store[ids[i]] + PositionFields(map[], i) == store[ids[i]]["order" := Num(i)]
    {
    }
  }

  /** GET /tasks/<id>: the detail page with the overdue flag. */
  function TaskDetail(idText: string, today: Date, store: Store): (r: Outcome)
    ensures r.store == store
    ensures r.response == Response(404, NotFoundPage) <==>
              ToObjectId(idText).None? || ToObjectId(idText).value !in store
    ensures r.response.status == 200 ==>
              && ToObjectId(idText).Some? && ToObjectId(idText).value in store
              && r.response.body.DetailPage?
              && Serialize(ToObjectId(idText).value, store[ToObjectId(idText).value]) == Ok(r.response.body.task)
              && r.response.body.overdue == IsOverdue(r.response.body.task, today)
    ensures r.response.status != 200 && r.response.status != 404 ==>
              r.response == Response(500, InternalErrorPage)
              && ToObjectId(idText).Some? && ToObjectId(idText).value in store
              && "title" !in store[ToObjectId(idText).value]
  {
    match ToObjectId(idText)
    case None => Outcome(Response(404, NotFoundPage), store)
    case Some(id) =>
      if id !in store then Outcome(Response(404, NotFoundPage), store)
      else
        match Serialize(id, store[id])
        case Raised(_) => Outcome(Response(500, InternalErrorPage), store)
        case Ok(task) => Outcome(Response(200, DetailPage(task, IsOverdue(task, today))), store)
  }

  // ---------------------------------------------------------------------
  // Properties across handlers
  // ---------------------------------------------------------------------

  lemma {:induction false} DistinctCount(s: seq<ObjectId>, x: ObjectId)
    requires forall i, j :: 0 <= i < j < |s| ==> s[i] != s[j]
    ensures multiset(s)[x] <= 1
  {
    if s != [] {
      assert s == [s[0]] + s[1..];
      DistinctCount(s[1..], x);
      if x == s[0] {
        assert x !in s[1..];
      }
    }
  }

  /** A rearrangement of a list without repetitions has none either. */
  lemma PermutationDistinct(s: seq<ObjectId>, r: seq<ObjectId>)
    requires multiset(r) == multiset(s)
    requires forall i, j :: 0 <= i < j < |s| ==> s[i] != s[j]
    ensures forall i, j :: 0 <= i < j < |r| ==> r[i] != r[j]
  {
    forall i, j | 0 <= i < j < |r|
      ensures r[i] != r[j]
    {
      if r[i] == r[j] {
        var x := r[i];
        assert r == r[..j] + r[j..];
        assert x in r[..j] && x in r[j..];
        assert multiset(r)[x] == multiset(r[..j])[x] + multiset(r[j..])[x];
        DistinctCount(s, x);
      }
    }
  }

  /** Sorting an enumeration lists every task exactly once. */
  lemma SortedIdsDistinct(natural: seq<ObjectId>, store: Store, fields: seq<string>)
    requires IsEnumeration(natural, store)
    ensures var ids := SortedIds(natural, store, fields);
            forall i, j :: 0 <= i < j < |ids| ==> ids[i] != ids[j]
  {
    PermutationDistinct(natural, SortedIds(natural, store, fields));
  }

  /** Deleting a task just created restores the collection. */
  lemma DeleteUndoesCreate(payload: Doc, now: string, newId: ObjectId, store: Store)
    requires newId !in store
    requires CreateTask(payload, now, newId, store).response.status == 201
    ensures DeleteTask(Render(newId), CreateTask(payload, now, newId, store).store)
            == Outcome(Response(200, OkJson), store)
  {
    RenderRoundTrip(newId);
    var doc := NewDocument(ValidateCreate(payload).doc, payload, now);
    var created := CreateTask(payload, now, newId, store).store;
    assert created == store[newId := doc];
    RemoveAdded(store, newId, doc);
    assert DeleteTask(Render(newId), created).store == store;
  }

  lemma RemoveAdded(store: Store, id: ObjectId, doc: Doc)
    requires id !in store
    ensures store[id := doc] - {id} == store
  {
  }

  /** The detail page of a task just created shows what the create
      returned. */
  lemma DetailShowsCreated(payload: Doc, now: string, newId: ObjectId, store: Store, today: Date)
    requires newId !in store
    requires CreateTask(payload, now, newId, store).response.status == 201
    ensures var created := CreateTask(payload, now, newId, store);
            TaskDetail(Render(newId), today, created.store).response
            == Response(200, DetailPage(created.response.body.task, IsOverdue(created.response.body.task, today)))
  {
    RenderRoundTrip(newId);
  }

  /** Sending the same update twice leaves the collection as sending it
      once, and the second response repeats the first. */
  lemma UpdateIdempotent(idText: string, payload: Doc, now: string, store: Store)
    ensures var once := UpdateTask(idText, payload, now, store);
            UpdateTask(idText, payload, now, once.store) == once
  {
    var once := UpdateTask(idText, payload, now, store);
    if ValidateUpdate(payload).Valid? && ToObjectId(idText).Some? && ToObjectId(idText).value in store {
      var id, fields := ToObjectId(idText).value, ValidateUpdate(payload).doc["updated_at" := Str(now)];
      SetTwiceSameKeys(store[id], fields, fields);
      assert once.store[id := once.store[id] + fields] == once.store;
    }
  }

  /** Repeating an update later, with another timestamp, answers with the
      same status and changes no stored field other than `updated_at`. */
  lemma UpdateRepeated(idText: string, payload: Doc, now1: string, now2: string, store: Store)
    ensures var once := UpdateTask(idText, payload, now1, store);
            var twice := UpdateTask(idText, payload, now2, once.store);
            && twice.response.status == once.response.status
            && twice.store.Keys == once.store.Keys
            && forall id :: id in once.store ==>
                 && twice.store[id].Keys == once.store[id].Keys
                 && forall k :: k in once.store[id] && k != "updated_at" ==> twice.store[id][k] == once.store[id][k]
  {
    if ValidateUpdate(payload).Valid? && ToObjectId(idText).Some? && ToObjectId(idText).value in store {
      ApplyUpdateTwice(store, ToObjectId(idText).value, ValidateUpdate(payload).doc, now1, now2);
    }
  }

  /** A second write of the same fields only moves `updated_at`. */
  lemma ApplyUpdateTwice(store: Store, id: ObjectId, doc: Doc, now1: string, now2: string)
    requires id in store
    ensures var once := ApplyUpdate(store, id, doc, now1);
            var twice := ApplyUpdate(once, id, doc, now2);
            && twice.Keys == once.Keys
            && forall other :: other in once ==>
                 && twice[other].Keys == once[other].Keys
                 && forall k :: k in once[other] && k != "updated_at" ==> twice[other][k] == once[other][k]
  {
  }

  /** A second delete of the same task finds nothing. */
  lemma DeleteTwiceNotFound(idText: string, store: Store)
    requires DeleteTask(idText, store).response.status == 200
    ensures DeleteTask(idText, DeleteTask(idText, store).store).response == Response(404, ErrorJson(NotFound))
  {
  }

  /** Reordering never changes what a task looks like through the API,
      apart from its `updated_at` timestamp. */
  lemma ReorderKeepsPublicFields(data: Doc, now: string, store: Store, id: ObjectId, k: string)
    requires Reorder(data, now, store).response.status == 200 && id in store
    requires k in StoredFields && k != "updated_at"
    ensures var after := Reorder(data, now, store).store;
            (k in after[id] <==> k in store[id]) && (k in store[id] ==> after[id][k] == store[id][k])
  {
    OrderIsPrivate();
    var refs := ParseRefs(Get(data, "ids", Null).items).value;
    AssignKeepsOtherFields(store, refs, map["updated_at" := Str(now)], 0, id, k);
  }

  /** The request value `["<id>", ...]` naming `ids` in that order. */
  function IdList(ids: seq<ObjectId>): (v: Value)
    ensures v.Arr? && |v.items| == |ids|
    ensures forall i :: 0 <= i < |ids| ==> v.items[i] == Str(Render(ids[i]))
  {
    Arr(seq(|ids|, i requires 0 <= i < |ids| => Str(Render(ids[i]))))
  }

  lemma ParseIdList(ids: seq<ObjectId>)
    ensures ParseRefs(IdList(ids).items) == Some(Refs(ids))
  {
    var items := IdList(ids).items;
    forall i | 0 <= i < |ids|
      ensures ParseRef(items[i]) == Some(Existing(ids[i]))
    {
      RenderRoundTrip(ids[i]);
    }
    assert ParseRefs(items).value == Refs(ids);
  }

  /** Where `x` occurs in `s`. */
  function IndexOf(s: seq<ObjectId>, x: ObjectId): (i: nat)
    requires x in s
    ensures i < |s| && s[i] == x
  {
    if s[0] == x then 0 else 1 + IndexOf(s[1..], x)
  }

  lemma {:induction false} DistinctCard(s: seq<ObjectId>)
    requires forall i, j :: 0 <= i < j < |s| ==> s[i] != s[j]
    ensures |set x | x in s| == |s|
  {
    if s != [] {
      DistinctCard(s[1..]);
      assert (set x | x in s) == {s[0]} + (set x | x in s[1..]);
      assert s[0] !in s[1..];
    }
  }

  /** Numbers that strictly increase grow at least as fast as their index. */
  lemma {:induction false} IncreasingSpread(f: seq<int>, i: int, j: int)
    requires forall a, b :: 0 <= a < b < |f| ==> f[a] < f[b]
    requires 0 <= i <= j < |f|
    ensures f[j] - f[i] >= j - i
    decreases j - i
  {
    if i < j {
      IncreasingSpread(f, i, j - 1);
    }
  }

  /** `n` strictly increasing numbers drawn from 0 .. n - 1 are exactly
      0, 1, ..., n - 1. */
  lemma IncreasingIsIdentity(f: seq<int>)
    requires forall a :: 0 <= a < |f| ==> 0 <= f[a] < |f|
    requires forall a, b :: 0 <= a < b < |f| ==> f[a] < f[b]
    ensures forall a :: 0 <= a < |f| ==> f[a] == a
  {
    forall a | 0 <= a < |f|
      ensures f[a] == a
    {
      IncreasingSpread(f, 0, a);
      IncreasingSpread(f, a, |f| - 1);
    }
  }

  /** The submitted list is one the reorder handler accepts. */
  lemma IdListAccepted(ids: seq<ObjectId>)
    requires ids != []
    ensures IsIdList(IdList(ids))
    ensures ParseRefs(IdList(ids).items) == Some(Refs(ids))
  {
    var items := IdList(ids).items;
    ParseIdList(ids);
    forall i | 0 <= i < |items|
      ensures items[i].Str? && IsIdText(items[i].s)
    {
      assert ParseRef(items[i]).Some?;
    }
  }

  /** A reorder naming tasks without repetition, all of them or only
      some, gives each listed task its position in the list as `order`. */
  lemma ReorderPositions(ids: seq<ObjectId>, data: Doc, now: string, store: Store)
    requires forall i :: 0 <= i < |ids| ==> ids[i] in store
    requires forall i, j :: 0 <= i < j < |ids| ==> ids[i] != ids[j]
    requires "ids" in data && data["ids"] == IdList(ids)
    ensures var after := Reorder(data, now, store).store;
            && after.Keys == store.Keys
            && forall i :: 0 <= i < |ids| ==> "order" in after[ids[i]] && after[ids[i]]["order"] == Num(i)
  {
    if ids != [] {
      IdListAccepted(ids);
      var r := Reorder(data, now, store);
      var refs := Refs(ids);
      assert Get(data, "ids", Null) == IdList(ids);
      assert r.response.status == 200;
      assert ParseRefs(Get(data, "ids", Null).items).value == refs;
      forall i | 0 <= i < |ids|
        ensures "order" in r.store[ids[i]] && r.store[ids[i]]["order"] == Num(i)
      {
        assert IsLastIndex(refs, i, Existing(ids[i]));
        assert r.store[ids[i]] == store[ids[i]] + map["updated_at" := Str(now), "order" := Num(i)];
      }
    }
  }

  /** Of two distinct tasks in key order by `ListFields`, the first holds
      the smaller position. */
  lemma PositionsAscend(a: Doc, b: Doc, i: int, j: int)
    requires "order" in a && a["order"] == Num(i)
    requires "order" in b && b["order"] == Num(j)
    requires i != j
    requires KeyCmp(SortKey(a, ListFields), SortKey(b, ListFields)) <= 0
    ensures i < j
  {
    var ka, kb := SortKey(a, ListFields), SortKey(b, ListFields);
    assert ka[0] == Num(i) && kb[0] == Num(j);
  }

  /** A list without repetitions drawn from `ids` and sorted by a key that
      starts with each task's position in `ids` lists them by increasing
      position. */
  lemma ListedByPosition(r: seq<ObjectId>, ids: seq<ObjectId>, store: Store) returns (f: seq<int>)
    requires forall a :: 0 <= a < |r| ==> r[a] in ids && r[a] in store
    requires forall a, b :: 0 <= a < b < |r| ==> r[a] != r[b]
    requires forall i :: 0 <= i < |ids| ==> ids[i] in store && "order" in store[ids[i]] && store[ids[i]]["order"] == Num(i)
    requires forall a, b :: 0 <= a < b < |r| ==>
               KeyCmp(SortKey(store[r[a]], ListFields), SortKey(store[r[b]], ListFields)) <= 0
    ensures |f| == |r|
    ensures forall a :: 0 <= a < |r| ==> 0 <= f[a] < |ids| && ids[f[a]] == r[a]
    ensures forall a, b :: 0 <= a < b < |r| ==> f[a] < f[b]
  {
    f := seq(|r|, i requires 0 <= i < |r| => IndexOf(ids, r[i]));
    forall a, b | 0 <= a < b < |r|
      ensures f[a] < f[b]
    {
      PositionsAscend(store[r[a]], store[r[b]], f[a], f[b]);
    }
  }

  /** Two lists naming the stored tasks without repetition are equally long. */
  lemma EnumerationsSameLength(a: seq<ObjectId>, b: seq<ObjectId>, store: Store)
    requires IsEnumeration(a, store) && IsEnumeration(b, store)
    ensures |a| == |b|
  {
    assert (set x | x in a) == store.Keys;
    assert (set x | x in b) == store.Keys;
    DistinctCard(a);
    DistinctCard(b);
  }

  /** When the tasks' positions number an enumeration of them from 0, the
      listing is that enumeration. */
  lemma ListingByPositions(natural: seq<ObjectId>, ids: seq<ObjectId>, store: Store)
    requires IsEnumeration(natural, store) && IsEnumeration(ids, store)
    requires forall i :: 0 <= i < |ids| ==> "order" in store[ids[i]] && store[ids[i]]["order"] == Num(i)
    ensures SortedIds(natural, store, ListFields) == ids
  {
    var r := SortedIds(natural, store, ListFields);
    SortedIdsDistinct(natural, store, ListFields);
    var f := ListedByPosition(r, ids, store);
    EnumerationsSameLength(natural, ids, store);
    IncreasingIsIdentity(f);
    forall a | 0 <= a < |r|
      ensures r[a] == ids[a]
    {
      assert f[a] == a;
    }
  }

  /** After a reorder that names every task exactly once, the task list
      comes back in exactly the submitted order. */
  lemma ListingFollowsReorder(natural: seq<ObjectId>, ids: seq<ObjectId>, data: Doc, now: string, store: Store)
    requires IsEnumeration(natural, store) && IsEnumeration(ids, store)
    requires "ids" in data && data["ids"] == IdList(ids)
    ensures var after := Reorder(data, now, store).store;
            IsEnumeration(natural, after) && SortedIds(natural, after, ListFields) == ids
  {
    var after := Reorder(data, now, store).store;
    ReorderPositions(ids, data, now, store);
    assert IsEnumeration(natural, after) && IsEnumeration(ids, after);
    ListingByPositions(natural, ids, after);
  }

  /** A sorted enumeration is again an enumeration. */
  lemma SortedIdsEnumerate(natural: seq<ObjectId>, store: Store, fields: seq<string>)
    requires IsEnumeration(natural, store)
    ensures IsEnumeration(SortedIds(natural, store, fields), store)
  {
    var ids := SortedIds(natural, store, fields);
    SortedIdsDistinct(natural, store, fields);
    forall id | id in store
      ensures id in ids
    {
      assert id in multiset(natural);
    }
  }

  /** After seeding, the task list comes back in order of creation time,
      which is the order seeding numbered the tasks in. */
  lemma ListingFollowsSeed(natural: seq<ObjectId>, store: Store)
    requires IsEnumeration(natural, store)
    ensures var after := SeedOrder(natural, store).store;
            IsEnumeration(natural, after)
            && SortedIds(natural, after, ListFields) == SortedIds(natural, store, SeedFields)
  {
    var after := SeedOrder(natural, store).store;
    var ids := SortedIds(natural, store, SeedFields);
    SortedIdsEnumerate(natural, store, SeedFields);
    assert IsEnumeration(natural, after) && IsEnumeration(ids, after);
    ListingByPositions(natural, ids, after);
  }
}
