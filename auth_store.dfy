/**
  The document store of auth_manipulacao.py: one JSON document in db.json holding the user
  list under "usuarios" and the recovery tokens under "recuperacoes". Loading never fails:
  a missing, unreadable or non-object file gives the empty document, and both loading and
  saving repair the two managed keys while leaving every other key alone.
 */
module AuthStore {
  import opened Json

  type Document = Object

  const UsersKey := "usuarios"
  const RecoveriesKey := "recuperacoes"

  /** The document every failed load falls back to. */
  const EmptyDocument: Document := map[UsersKey := JArray([]), RecoveriesKey := JObject(map[])]

  /** "usuarios" holds a list and "recuperacoes" holds an object. */
  predicate WellFormed(d: Document)
  {
    && UsersKey in d && d[UsersKey].JArray?
    && RecoveriesKey in d && d[RecoveriesKey].JObject?
  }

  /** What `_garantir_estrutura` leaves in the dictionary it is given. */
  function Normalized(d: Document): (r: Document)
    ensures WellFormed(r)
    ensures r.Keys == d.Keys + {UsersKey, RecoveriesKey}
    ensures forall k :: k in d && k != UsersKey && k != RecoveriesKey ==> r[k] == d[k]
    ensures UsersKey in d && d[UsersKey].JArray? ==> r[UsersKey] == d[UsersKey]
    ensures RecoveriesKey in d && d[RecoveriesKey].JObject? ==> r[RecoveriesKey] == d[RecoveriesKey]
    ensures !(UsersKey in d && d[UsersKey].JArray?) ==> r[UsersKey] == JArray([])
    ensures !(RecoveriesKey in d && d[RecoveriesKey].JObject?) ==> r[RecoveriesKey] == JObject(map[])
  {
    var withUsers := if UsersKey in d && d[UsersKey].JArray? then d else d[UsersKey := JArray([])];
    if RecoveriesKey in withUsers && withUsers[RecoveriesKey].JObject? then withUsers
    else withUsers[RecoveriesKey := JObject(map[])]
  }

  /** A document that already has both collections is returned unchanged. */
  lemma NormalizedWellFormed(d: Document)
    requires WellFormed(d)
    ensures Normalized(d) == d
  {
  }

  /** Normalising twice is normalising once. */
  lemma NormalizedIdempotent(d: Document)
    ensures Normalized(Normalized(d)) == Normalized(d)
  {
    NormalizedWellFormed(Normalized(d));
  }

  /** A mutable dictionary: `_garantir_estrutura` repairs the caller's dict in place. */
  class Dict {
    var entries: Document

    constructor (entries: Document)
      ensures this.entries == entries
    {
      this.entries := entries;
    }
  }

  /** `_garantir_estrutura(dados)`: repairs `d` in place and returns that same dict. */
  method EnsureStructure(d: Dict) returns (same: Dict)
    modifies d
    ensures same == d
    ensures d.entries == Normalized(old(d.entries))
  {
    if !(UsersKey in d.entries && d.entries[UsersKey].JArray?) {
      d.entries := d.entries[UsersKey := JArray([])];
    }
    if !(RecoveriesKey in d.entries && d.entries[RecoveriesKey].JObject?) {
      d.entries := d.entries[RecoveriesKey := JObject(map[])];
    }
    same := d;
  }

  /** The state of db.json as `carregar_db` finds it. */
  datatype FileState =
    | Missing
    | Unparseable   // exists, but reading or `json.load` raised
    | Parsed(value: Json)

  /** The document `carregar_db` returns for a given state of db.json. */
  function LoadedDocument(f: FileState): (r: Document)
    ensures WellFormed(r)
    ensures f.Missing? || f.Unparseable? ==> r == EmptyDocument
    ensures f.Parsed? && !f.value.JObject? ==> r == EmptyDocument
    ensures f.Parsed? && f.value.JObject? ==> r == Normalized(f.value.fields)
  {
    match f
    case Missing => Normalized(map[])
    case Unparseable => Normalized(map[])
    case Parsed(v) => if v.JObject? then Normalized(v.fields) else Normalized(map[])
  }

  /** db.json, read by `carregar_db` and overwritten by `salvar_db`. */
  class DbFile {
    var state: FileState

    constructor (state: FileState)
      ensures this.state == state
    {
      this.state := state;
    }

    /** `carregar_db()`: a fresh dictionary, never an exception. */
    method Load() returns (d: Dict)
      ensures fresh(d)
      ensures d.entries == LoadedDocument(state)
    {
      var data: Document;
      match state {
        case Missing =>
          data := map[];
        case Unparseable =>
          data := map[];
        case Parsed(v) =>
          data := if v.JObject? then v.fields else map[];
      }
      d := new Dict(data);
      d := EnsureStructure(d);
    }

    /**
      `salvar_db(dados)`: repairs the caller's dictionary in place, then overwrites the file
      with it; the JSON text is not modelled, only the value it encodes.
     */
    method Save(d: Dict)
      modifies this, d
      ensures d.entries == Normalized(old(d.entries))
      ensures state == Parsed(JObject(d.entries))
    {
      var same := EnsureStructure(d);
      state := Parsed(JObject(same.entries));
    }
  }

  /** Loading after a save gives back the normalised form of what was saved. */
  lemma LoadAfterSave(d: Document)
    ensures LoadedDocument(Parsed(JObject(Normalized(d)))) == Normalized(d)
  {
    NormalizedIdempotent(d);
  }

  /** Saving what was just loaded and loading again changes nothing. */
  lemma SaveLoadedIsNoOp(f: FileState)
    ensures LoadedDocument(Parsed(JObject(Normalized(LoadedDocument(f))))) == LoadedDocument(f)
  {
    NormalizedWellFormed(LoadedDocument(f));
    NormalizedWellFormed(LoadedDocument(Parsed(JObject(LoadedDocument(f)))));
  }
}
