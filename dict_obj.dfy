/** `DictObj` (utils.py): a dictionary whose keys can also be read as attributes. A
    present key reads as its value and a missing key reads as None instead of
    raising. */
module DictObject {
  import opened Common

  /** The dictionary held by a `DictObj`. */
  datatype DictObj<V> = DictObj(entries: map<string, V>)

  /** The constructor as written: `DictObj(d=None)` passes `d` on to `dict()`, and
      `dict(None)` raises TypeError, so the default argument cannot be used. */
  function NewAsWritten<V>(d: Option<map<string, V>>): (r: Result<DictObj<V>>)
    ensures r.Failure? <==> d.None?
    ensures r.Failure? ==> r.error == TypeError
    ensures r.Success? ==> r.value.entries == d.value
  {
    match d
    case None => Failure(TypeError)
    case Some(m) => Success(DictObj(m))
  }

  /** The default argument raises instead of giving an empty object. */
  lemma NewDefaultRaises<V>()
    ensures NewAsWritten<V>(None) == Failure(TypeError)
  {
  }

  /** The constructor as evidently intended: no argument gives an empty object. */
  function New<V>(d: Option<map<string, V>>): (r: DictObj<V>)
    ensures d.None? ==> r.entries == map[]
    ensures d.Some? ==> r.entries == d.value
  {
    match d
    case None => DictObj(map[])
    case Some(m) => DictObj(m)
  }

  /** The corrected constructor agrees with the written one wherever that one returns. */
  lemma NewAgrees<V>(d: Option<map<string, V>>)
    ensures NewAsWritten(d).Success? ==> New(d) == NewAsWritten(d).value
    ensures d.Some? ==> NewAsWritten(d).Success?
  {
  }

  /** `obj.item` for a name that is not an attribute of `dict` itself: the stored
      value when the key is present, None otherwise. */
  function GetAttr<V>(obj: DictObj<V>, item: string): (r: Option<V>)
    ensures r.Some? <==> item in obj.entries
    ensures r.Some? ==> r.value == obj.entries[item]
  {
    if item in obj.entries then Some(obj.entries[item]) else None
  }

  /** Reading attributes of an object built from a dictionary reads the dictionary,
      and every attribute of the default object is None. */
  lemma GetAttrOfNew<V>(m: map<string, V>, item: string)
    ensures GetAttr(New(Some(m)), item) == if item in m then Some(m[item]) else None
    ensures GetAttr(New<V>(None), item) == None
  {
  }
}
