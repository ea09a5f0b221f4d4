/**
 The list collection as an ordered store of documents: lookup of the first
 document with a code or a name, insertion under the unique index on `code`,
 and saving a document back in place.
 */
module Directory {
  import opened Results
  import opened Errors
  import opened Schema

  type Store = seq<List>

  /** The position of the first element satisfying `p`, as `findOne` returns the first match. */
  function First<T>(s: seq<T>, p: T -> bool): (r: Option<nat>)
    ensures r.None? <==> forall k :: 0 <= k < |s| ==> !p(s[k])
    ensures r.Some? ==> r.value < |s| && p(s[r.value]) && forall k :: 0 <= k < r.value ==> !p(s[k])
  {
    if s == [] then None
    else if p(s[0]) then Some(0)
    else
      match First(s[1..], p)
      case None => None
      case Some(k) => Some(k + 1)
  }

  /** `findOne({ code })`. */
  function FindByCode(store: Store, code: string): (r: Option<nat>)
    ensures r.None? <==> forall k :: 0 <= k < |store| ==> store[k].code != code
    ensures r.Some? ==> r.value < |store| && store[r.value].code == code
  {
    First(store, (l: List) => l.code == code)
  }

  /** `findOne({ name })`: names are not unique, so this is the first list with the name. */
  function FindByName(store: Store, name: string): (r: Option<nat>)
    ensures r.None? <==> forall k :: 0 <= k < |store| ==> store[k].name != name
    ensures r.Some? ==> r.value < |store| && store[r.value].name == name
                        && forall k :: 0 <= k < r.value ==> store[k].name != name
  {
    First(store, (l: List) => l.name == name)
  }

  /** The unique index on `code`: no two documents share one. */
  predicate UniqueCodes(store: Store) {
    forall i, j :: 0 <= i < |store| && 0 <= j < |store| && store[i].code == store[j].code ==> i == j
  }

  /** With unique codes, a lookup by code finds the one document carrying it. */
  lemma FindByCodeUnique(store: Store, k: nat)
    requires UniqueCodes(store) && k < |store|
    ensures FindByCode(store, store[k].code) == Some(k)
  {
  }

  /**
   Inserting a new document: refused when its code is already taken,
   otherwise the document is added and the index stays unique.
   */
  function Insert(store: Store, l: List): (r: Result<Store, Error>)
    ensures r.Err? <==> exists k :: 0 <= k < |store| && store[k].code == l.code
    ensures r.Err? ==> r.error == CreateFailed
    ensures r.Ok? ==> |r.value| == |store| + 1 && store <= r.value && r.value[|store|] == l
    ensures r.Ok? && UniqueCodes(store) ==> UniqueCodes(r.value)
  {
    match FindByCode(store, l.code)
    case Some(_) => Err(CreateFailed)
    case None => Ok(store + [l])
  }

  /** `list.save()` of a loaded document: it replaces the document in place and keeps its code. */
  function Save(store: Store, i: nat, l: List): (r: Store)
    requires i < |store| && l.code == store[i].code
    ensures |r| == |store| && r[i] == l
    ensures forall k :: 0 <= k < |store| && k != i ==> r[k] == store[k]
    ensures UniqueCodes(store) ==> UniqueCodes(r)
  {
    store[i := l]
  }
}
