/** JSON values as the task API decodes and stores them, together with the
    few pieces of Python semantics the handlers rely on: truthiness,
    `dict.get`, and the exceptions a handler can run into. */
module Py {

  /** A decoded JSON value (and a stored Mongo field value).
      Numbers are integers; JSON floats are not modelled. */
  datatype Value =
    | Null
    | Bool(b: bool)
    | Num(n: int)
    | Str(s: string)
    | Arr(items: seq<Value>)
    | Obj(fields: map<string, Value>)

  /** A JSON object or a Mongo document without its `_id`. */
  type Doc = map<string, Value>

  datatype Option<+T> = None | Some(value: T)

  /** The Python exceptions the modelled code can raise. */
  datatype Fault =
    | AttributeError   // a string method called on a value that is not a string
    | KeyError(key: string)

  datatype Result<+T> = Ok(value: T) | Raised(fault: Fault)

  /** Python's `bool(v)` for a decoded JSON value. */
  predicate Truthy(v: Value) {
    match v
    case Null => false
    case Bool(b) => b
    case Num(n) => n != 0
    case Str(s) => s != ""
    case Arr(items) => items != []
    case Obj(fields) => fields != map[]
  }

  /** Python's `d.get(key, default)`. */
  function Get(d: Doc, key: string, default: Value): Value {
    if key in d then d[key] else default
  }

  /** `(v or default)` when the result is about to receive a string method:
      a falsy value gives `default`, a string gives itself, and any other
      truthy value makes the method call raise AttributeError (None here). */
  function StrOr(v: Value, default: string): (r: Option<string>)
    ensures r.None? <==> Truthy(v) && !v.Str?
    ensures r.Some? && Truthy(v) ==> r.value == v.s
    ensures r.Some? && !Truthy(v) ==> r.value == default
  {
    if !Truthy(v) then Some(default)
    else if v.Str? then Some(v.s)
    else None
  }

  /** The stored and public field names are distinct strings. */
  lemma FieldNamesDistinct()
    ensures "id" != "title" && "id" != "notes" && "id" != "priority" && "id" != "completed" && "id" != "created_at" && "id" != "updated_at" && "id" != "due_date" && "id" != "order"
    ensures "title" != "notes" && "title" != "priority" && "title" != "completed" && "title" != "created_at" && "title" != "updated_at" && "title" != "due_date" && "title" != "order"
    ensures "notes" != "priority" && "notes" != "completed" && "notes" != "created_at" && "notes" != "updated_at" && "notes" != "due_date" && "notes" != "order"
    ensures "priority" != "completed" && "priority" != "created_at" && "priority" != "updated_at" && "priority" != "due_date" && "priority" != "order"
    ensures "completed" != "created_at" && "completed" != "updated_at" && "completed" != "due_date" && "completed" != "order"
    ensures "created_at" != "updated_at" && "created_at" != "due_date" && "created_at" != "order"
    ensures "updated_at" != "due_date" && "updated_at" != "order"
    ensures "due_date" != "order"
  {
    assert "id"[0] == 'i' && "id"[1] == 'd';
    assert "title"[0] == 't' && "title"[1] == 'i';
    assert "notes"[0] == 'n' && "notes"[1] == 'o';
    assert "priority"[0] == 'p' && "priority"[1] == 'r';
    assert "completed"[0] == 'c' && "completed"[1] == 'o';
    assert "created_at"[0] == 'c' && "created_at"[1] == 'r';
    assert "updated_at"[0] == 'u' && "updated_at"[1] == 'p';
    assert "due_date"[0] == 'd' && "due_date"[1] == 'u';
    assert "order"[0] == 'o' && "order"[1] == 'r';
  }
}
