/** The document layer: how a stored task becomes the JSON object the API
    returns. A store entry is an id together with the document's other
    fields; `_id` itself is the key and never a field. */
module Db {
  import opened Py
  import opened ObjectIds
  import opened Schemas

  /** The keys of every serialized task. */
  const PublicFields: set<string> :=
    {"id", "title", "notes", "priority", "completed", "created_at", "updated_at", "due_date"}

  /** The stored fields `serialize` reads besides `_id`. */
  const StoredFields: set<string> :=
    {"title", "notes", "priority", "completed", "created_at", "updated_at", "due_date"}

  /** The stored fields that `serialize` copies when present and replaces
      by a default when missing. */
  predicate CopiedField(k: string) {
    k == "notes" || k == "priority" || k == "created_at" || k == "updated_at" || k == "due_date"
  }

  /** `serialize(task_doc)` for the document stored under `id`. A document
      without a title makes `task_doc["title"]` raise KeyError. */
  function Serialize(id: ObjectId, doc: Doc): (r: Result<Doc>)
    ensures r.Raised? <==> "title" !in doc
    ensures r.Raised? ==> r.fault == KeyError("title")
    ensures r.Ok? ==> r.value.Keys == PublicFields
    // the id is rendered as text that parses back to the same id
    ensures r.Ok? ==> "id" in r.value && r.value["id"].Str? && ToObjectId(r.value["id"].s) == Some(id)
    ensures r.Ok? ==> "title" in doc && "title" in r.value && r.value["title"] == doc["title"]
    // the optional fields are copied when stored ...
    ensures r.Ok? ==> forall k :: k in doc && CopiedField(k) ==> k in r.value && r.value[k] == doc[k]
    // ... and defaulted when missing
    ensures r.Ok? && "notes" !in doc ==> "notes" in r.value && r.value["notes"] == Str("")
    ensures r.Ok? && "priority" !in doc ==> "priority" in r.value && r.value["priority"] == Str(Normal.Name())
    ensures r.Ok? ==> forall k :: (k !in doc && (k == "created_at" || k == "updated_at" || k == "due_date"))
                                   ==> k in r.value && r.value[k] == Null
    // `completed` is always a boolean: whether a truthy value is stored
    ensures r.Ok? ==> "completed" in r.value && r.value["completed"].Bool?
                      && (r.value["completed"].b <==> "completed" in doc && Truthy(doc["completed"]))
  {
    FieldNamesDistinct();
    RenderRoundTrip(id);
    if "title" !in doc then Raised(KeyError("title"))
    else
      Ok(map[
        "id" := Str(Render(id)),
        "title" := doc["title"],
        "notes" := Get(doc, "notes", Str("")),
        "priority" := Get(doc, "priority", Str(Normal.Name())),
        "completed" := Bool(Truthy(Get(doc, "completed", Bool(false)))),
        "created_at" := Get(doc, "created_at", Null),
        "updated_at" := Get(doc, "updated_at", Null),
        "due_date" := Get(doc, "due_date", Null)
      ])
  }

  /** Two documents that agree on the fields `serialize` reads serialize
      alike: every other stored field stays private. */
  lemma SerializeReadsStoredFields(id: ObjectId, a: Doc, b: Doc)
    requires forall k :: k in StoredFields ==> (k in a <==> k in b)
    requires forall k :: k in StoredFields && k in a && k in b ==> a[k] == b[k]
    ensures Serialize(id, a) == Serialize(id, b)
  {
    assert "title" in StoredFields && "notes" in StoredFields && "priority" in StoredFields;
    assert "completed" in StoredFields && "created_at" in StoredFields;
    assert "updated_at" in StoredFields && "due_date" in StoredFields;
  }

  /** The `order` field the reorder endpoints write never shows in the API. */
  lemma SerializeIgnoresOrder(id: ObjectId, doc: Doc, position: Value)
    ensures Serialize(id, doc["order" := position]) == Serialize(id, doc)
  {
    FieldNamesDistinct();
    SerializeReadsStoredFields(id, doc["order" := position], doc);
  }

  /** The position field is not one `serialize` reads. */
  lemma OrderIsPrivate()
    ensures "order" !in StoredFields
  {
    FieldNamesDistinct();
  }
}
