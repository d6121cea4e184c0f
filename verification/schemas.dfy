/** Request-body validation for creating and updating tasks: each validator
    turns a loose JSON object into a normalised document or into error
    messages. */
module Schemas {
  import opened Py
  import opened Text

  /** The priorities a task may have (`PRIORITIES`). */
  datatype Priority = Low | Normal | High {
    function Name(): string {
      match this
      case Low => "low"
      case Normal => "normal"
      case High => "high"
    }
  }

  /** The priority a lower-cased string names, if any. */
  function ParsePriority(s: string): (r: Option<Priority>)
    ensures r.Some? ==> r.value.Name() == s
    ensures r.None? ==> s != Low.Name() && s != Normal.Name() && s != High.Name()
  {
    if s == "low" then Some(Low)
    else if s == "normal" then Some(Normal)
    else if s == "high" then Some(High)
    else None
  }

  predicate IsPriorityName(s: string) {
    ParsePriority(s).Some?
  }

  /** The error messages the validators return. */
  datatype Message = TitleRequired | TitleEmpty | PriorityInvalid {
    function Text(): string {
      match this
      case TitleRequired => "title is required"
      case TitleEmpty => "title cannot be empty"
      case PriorityInvalid => "priority must be low, normal, or high"
    }
  }

  /** The fields a create produces and the only fields an update may set. */
  const TaskFields: set<string> := {"title", "notes", "priority", "completed"}

  /** A validator's outcome: the normalised document, the error messages
      returned to the client, or an exception the validator raised. */
  datatype Validation = Valid(doc: Doc) | Invalid(errors: seq<Message>) | Failed(fault: Fault)

  /** A title value that is missing, falsy or whitespace only. */
  predicate BlankTitle(v: Value) {
    !Truthy(v) || (v.Str? && AllSpace(v.s))
  }

  /** A value a string method cannot be called on: truthy and not a string. */
  predicate NotText(v: Value) {
    Truthy(v) && !v.Str?
  }

  /** The priority a create accepts: missing or falsy (meaning "normal"),
      or a string that lower-cases to one of the priorities. */
  predicate CreatePriorityOk(v: Value) {
    !Truthy(v) || (v.Str? && ParsePriority(Lower(v.s)).Some?)
  }

  /** A whitespace-free, non-empty title that occurs in the submitted text. */
  ghost predicate NormalTitle(t: Value, submitted: Value) {
    t.Str? && t.s != [] && Trimmed(t.s) && submitted.Str? && IsCoreOf(t.s, submitted.s)
  }

  /** `(v or "")` for a value that is known not to raise: a string is
      itself, any falsy value is "". */
  function TextOf(v: Value): (r: string)
    requires !NotText(v)
    ensures StrOr(v, "") == Some(r)
    ensures v.Str? ==> r == v.s
  {
    if v.Str? then v.s else ""
  }

  /** `(v or "").strip()` for a value that is known not to raise. */
  function StrippedText(v: Value): (r: string)
    requires !NotText(v)
    ensures Trimmed(r)
    ensures r == [] <==> BlankTitle(v)
    ensures v.Str? ==> IsCoreOf(r, v.s)
    ensures !Truthy(v) ==> r == []
  {
    StripEmptyIff(TextOf(v));
    StripIsCore(TextOf(v));
    Strip(TextOf(v))
  }

  /** `(v or "normal").lower()` checked against the priorities, for a value
      that is known not to raise. */
  function CreatePriority(v: Value): (r: Option<Priority>)
    requires !NotText(v)
    ensures r.Some? <==> CreatePriorityOk(v)
    ensures !Truthy(v) ==> r == Some(Normal)
  {
    // a falsy value selects "normal", which lower-cases to itself
    if Truthy(v) then ParsePriority(Lower(v.s)) else Some(Normal)
  }

  /** The document `validate_create` returns on success. */
  function NewTaskDoc(title: string, notes: string, priority: string): (d: Doc)
    ensures d.Keys == TaskFields
    ensures "title" in d && d["title"] == Str(title)
    ensures "notes" in d && d["notes"] == Str(notes)
    ensures "priority" in d && d["priority"] == Str(priority)
    ensures "completed" in d && d["completed"] == Bool(false)
  {
    FieldNamesDistinct();
    map["title" := Str(title), "notes" := Str(notes), "priority" := Str(priority), "completed" := Bool(false)]
  }

  /** The payloads `validate_create` accepts: the title is a non-blank
      string, the priority is missing, falsy or names a priority in any
      letter case, and the notes are missing, falsy or a string. */
  predicate CreateAcceptable(payload: Doc) {
    && !NotText(Get(payload, "title", Null)) && !BlankTitle(Get(payload, "title", Null))
    && !NotText(Get(payload, "priority", Null)) && CreatePriorityOk(Get(payload, "priority", Null))
    && !NotText(Get(payload, "notes", Null))
  }

  /** The document `validate_create` returns for an acceptable payload. */
  function CreateDoc(payload: Doc): (d: Doc)
    requires CreateAcceptable(payload)
    ensures d.Keys == TaskFields
    ensures "title" in d && "title" in payload && payload["title"].Str?
            && d["title"] == Str(Strip(payload["title"].s)) && NormalTitle(d["title"], payload["title"])
    ensures "notes" in d && d["notes"].Str? && Trimmed(d["notes"].s)
    ensures !Truthy(Get(payload, "notes", Null)) ==> "notes" in d && d["notes"] == Str("")
    ensures Truthy(Get(payload, "notes", Null)) ==>
              "notes" in payload && payload["notes"].Str? && "notes" in d && d["notes"] == Str(Strip(payload["notes"].s))
    ensures "priority" in d && d["priority"].Str? && IsPriorityName(d["priority"].s)
    ensures !Truthy(Get(payload, "priority", Null)) ==> "priority" in d && d["priority"] == Str(Normal.Name())
    ensures Truthy(Get(payload, "priority", Null)) ==>
              "priority" in payload && payload["priority"].Str? && "priority" in d
              && d["priority"] == Str(Lower(payload["priority"].s))
    ensures "completed" in d && d["completed"] == Bool(false)
  {
    var title := Get(payload, "title", Null);
    var notes := Get(payload, "notes", Null);
    StripIsCore(TextOf(title));
    StripIsCore(TextOf(notes));
    NewTaskDoc(StrippedText(title), StrippedText(notes), CreatePriority(Get(payload, "priority", Null)).value.Name())
  }

  /** `validate_create(payload)`. */
  function ValidateCreate(payload: Doc): (r: Validation)
    // exceptions: a string method on a truthy non-string, in evaluation
    // order; notes are only read once title and priority have passed
    ensures r.Failed? ==> r.fault == AttributeError
    ensures r.Failed? <==>
              || NotText(Get(payload, "title", Null))
              || NotText(Get(payload, "priority", Null))
              || (!BlankTitle(Get(payload, "title", Null)) && CreatePriorityOk(Get(payload, "priority", Null))
                  && NotText(Get(payload, "notes", Null)))
    // errors are reported when title and priority are text and one fails
    ensures r.Invalid? <==>
              && !NotText(Get(payload, "title", Null)) && !NotText(Get(payload, "priority", Null))
              && (BlankTitle(Get(payload, "title", Null)) || !CreatePriorityOk(Get(payload, "priority", Null)))
    ensures r.Valid? <==> CreateAcceptable(payload)
    ensures r.Valid? ==> r.doc == CreateDoc(payload)
  {
    var title := Get(payload, "title", Null);
    var priority := Get(payload, "priority", Null);
    var notes := Get(payload, "notes", Null);
    if NotText(title) || NotText(priority) then Failed(AttributeError)
    else
      var t := StrippedText(title);
      var p := CreatePriority(priority);
      var errors := (if t == "" then [TitleRequired] else [])
                    + (if p.Some? then [] else [PriorityInvalid]);
      if errors != [] then Invalid(errors)
      else if NotText(notes) then Failed(AttributeError)
      else Valid(CreateDoc(payload))
  }

  /** Both validation errors accumulate, the title error first: the list
      holds "title is required" exactly when the title is blank and the
      priority error exactly when the priority is not acceptable. */
  lemma ValidateCreateErrors(payload: Doc)
    ensures var r := ValidateCreate(payload);
      r.Invalid? ==>
        r.errors == (if BlankTitle(Get(payload, "title", Null)) then [TitleRequired] else [])
                    + (if CreatePriorityOk(Get(payload, "priority", Null)) then [] else [PriorityInvalid])
  {
  }

  /** The update-side priority check: the value, with a falsy value meaning
      "", must lower-case to a priority, so an empty priority is rejected. */
  predicate UpdatePriorityOk(v: Value) {
    v.Str? && ParsePriority(Lower(v.s)).Some?
  }

  /** The title check of `validate_update` passes: no title, or a
      non-blank string. */
  predicate UpdateTitleOk(payload: Doc) {
    "title" in payload ==> !NotText(payload["title"]) && !BlankTitle(payload["title"])
  }

  /** The notes of an update can be stripped: no notes, or text. */
  predicate UpdateNotesOk(payload: Doc) {
    "notes" in payload ==> !NotText(payload["notes"])
  }

  /** The payload fields `validate_update` accepts: a present title is a
      non-blank string, present notes are text, and a present priority is
      a string naming a priority. */
  predicate UpdateAcceptable(payload: Doc) {
    && UpdateTitleOk(payload)
    && UpdateNotesOk(payload)
    && ("priority" in payload ==> UpdatePriorityOk(payload["priority"]))
  }

  /** The normalised value `validate_update` stores for a known field:
      stripped text for title and notes, the lower-cased priority, and the
      truth value of `completed`. Values validation rejects are passed
      through unchanged. */
  function FieldUpdate(key: string, v: Value): Value {
    if key == "completed" then Bool(Truthy(v))
    else if key == "priority" && v.Str? then Str(Lower(v.s))
    else if NotText(v) || key == "priority" then v
    else Str(Strip(TextOf(v)))
  }

  /** The document `validate_update` builds from an acceptable payload:
      each known field the payload carries, normalised. */
  function UpdateDoc(payload: Doc): (d: Doc)
    requires UpdateAcceptable(payload)
    ensures d.Keys == payload.Keys * TaskFields
    ensures "title" in payload ==> "title" in d && d["title"] == Str(Strip(TextOf(payload["title"])))
    ensures "notes" in payload ==> "notes" in d && d["notes"] == Str(Strip(TextOf(payload["notes"])))
    ensures "priority" in payload ==> "priority" in d && d["priority"] == Str(Lower(payload["priority"].s))
    ensures "completed" in payload ==> "completed" in d && d["completed"] == Bool(Truthy(payload["completed"]))
  {
    FieldNamesDistinct();
    map k | k in payload.Keys * TaskFields :: FieldUpdate(k, payload[k])
  }

  /** `validate_update(payload)`. */
  function ValidateUpdate(payload: Doc): (r: Validation)
    ensures payload == map[] ==> r == Valid(map[])
    // the checks run title, notes, priority; the first problem ends validation
    ensures r.Failed? ==> r.fault == AttributeError
    ensures r.Failed? <==>
              || ("title" in payload && NotText(payload["title"]))
              || (UpdateTitleOk(payload) && "notes" in payload && NotText(payload["notes"]))
              || (UpdateTitleOk(payload) && UpdateNotesOk(payload)
                  && "priority" in payload && NotText(payload["priority"]))
    ensures ("title" in payload && !NotText(payload["title"]) && BlankTitle(payload["title"]))
              ==> r == Invalid([TitleEmpty])
    ensures (UpdateTitleOk(payload) && UpdateNotesOk(payload) && "priority" in payload
             && !NotText(payload["priority"]) && !UpdatePriorityOk(payload["priority"]))
              ==> r == Invalid([PriorityInvalid])
    ensures r.Valid? <==> UpdateAcceptable(payload)
    ensures r.Valid? ==> r.doc == UpdateDoc(payload)
    // only present, known keys reach the update
    ensures r.Valid? ==> r.doc.Keys == payload.Keys * TaskFields
    ensures r.Valid? && "title" in r.doc ==> "title" in payload && NormalTitle(r.doc["title"], payload["title"])
    ensures r.Valid? && "notes" in r.doc ==> r.doc["notes"].Str? && Trimmed(r.doc["notes"].s)
    ensures r.Valid? && "priority" in r.doc ==>
              "priority" in payload && payload["priority"].Str? && r.doc["priority"] == Str(Lower(payload["priority"].s))
              && IsPriorityName(r.doc["priority"].s)
    ensures r.Valid? && "completed" in r.doc ==>
              "completed" in payload && r.doc["completed"] == Bool(Truthy(payload["completed"]))
  {
    if "title" in payload && NotText(payload["title"]) then Failed(AttributeError)
    else if "title" in payload && StrippedText(payload["title"]) == "" then Invalid([TitleEmpty])
    else if "notes" in payload && NotText(payload["notes"]) then Failed(AttributeError)
    else if "priority" in payload && NotText(payload["priority"]) then Failed(AttributeError)
    else if "priority" in payload && ParsePriority(Lower(TextOf(payload["priority"]))).None? then
      Invalid([PriorityInvalid])
    else
      Valid(UpdateDoc(payload))
  }
}
