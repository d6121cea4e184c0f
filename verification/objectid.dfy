/** Mongo document ids. bson's `ObjectId(text)` accepts a 24-character
    hexadecimal string (either case) and `str(oid)` renders it as lower-case
    hex; that pair is the only part of the id format the handlers depend on. */
module ObjectIds {
  import opened Py
  import opened Text

  predicate IsHexDigit(c: char) {
    ('0' <= c <= '9') || ('a' <= c <= 'f') || ('A' <= c <= 'F')
  }

  predicate IsLowerHexDigit(c: char) {
    ('0' <= c <= '9') || ('a' <= c <= 'f')
  }

  /** Text that `ObjectId(text)` accepts. */
  predicate IsIdText(s: string) {
    |s| == 24 && forall i :: 0 <= i < |s| ==> IsHexDigit(s[i])
  }

  /** An id, kept in its canonical (lower-case hex) rendering. */
  type ObjectId = s: string | |s| == 24 && forall i :: 0 <= i < |s| ==> IsLowerHexDigit(s[i])
    witness "000000000000000000000000"

  /** `str(oid)`. */
  function Render(id: ObjectId): (r: string)
    ensures IsIdText(r)
  {
    id
  }

  /** `to_object_id(text)`: the id, or None where `to_object_id` raises
      ValueError("Invalid id"). */
  function ToObjectId(text: string): (r: Option<ObjectId>)
    ensures r.Some? <==> IsIdText(text)
    ensures r.Some? ==> Render(r.value) == Lower(text)
  {
    if IsIdText(text) then
      var t := Lower(text);
      assert forall i :: 0 <= i < |t| ==> IsLowerHexDigit(t[i]) by {
        forall i | 0 <= i < |t|
          ensures IsLowerHexDigit(t[i])
        {
          assert t[i] == LowerChar(text[i]);
        }
      }
      Some(t)
    else None
  }

  /** Parsing a rendered id gives the id back, so ids survive the trip
      through JSON and URLs. */
  lemma RenderRoundTrip(id: ObjectId)
    ensures ToObjectId(Render(id)) == Some(id)
  {
    LowerOfLower(id);
  }

  /** Two texts name the same id exactly when they agree up to letter case. */
  lemma SameIdIffSameLowerCase(a: string, b: string)
    requires IsIdText(a) && IsIdText(b)
    ensures ToObjectId(a) == ToObjectId(b) <==> Lower(a) == Lower(b)
  {
  }

  /** One element of the reorder request's `ids` list after `ObjectId(v)`.
      `ObjectId(None)` does not fail: it generates a new id, which matches
      no stored task. */
  datatype IdRef = Existing(id: ObjectId) | Fresh

  /** `ObjectId(v)` for a decoded JSON value; None where it raises. */
  function ParseRef(v: Value): (r: Option<IdRef>)
    ensures r.Some? <==> v.Null? || (v.Str? && IsIdText(v.s))
    ensures r == Some(Fresh) <==> v.Null?
    ensures v.Str? && r.Some? ==> r == Some(Existing(ToObjectId(v.s).value))
  {
    match v
    case Null => Some(Fresh)
    case Str(s) =>
      (match ToObjectId(s)
       case Some(id) => Some(Existing(id))
       case None => None)
    case _ => None
  }

  /** `[ObjectId(s) for s in ids]`: every element converted, or None as soon
      as one conversion raises. */
  function ParseRefs(vs: seq<Value>): (r: Option<seq<IdRef>>)
    ensures r.Some? <==> forall i :: 0 <= i < |vs| ==> ParseRef(vs[i]).Some?
    ensures r.Some? ==> |r.value| == |vs|
    ensures r.Some? ==> forall i :: 0 <= i < |vs| ==> r.value[i] == ParseRef(vs[i]).value
  {
    if vs == [] then Some([])
    else
      match ParseRef(vs[0])
      case None => None
      case Some(first) =>
        match ParseRefs(vs[1..])
        case None => None
        case Some(rest) => Some([first] + rest)
  }
}
