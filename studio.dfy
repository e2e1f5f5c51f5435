/** `NeuralStudio`'s vault files (app.js): how a saved file is named, and how
    `currentOpenedId` follows saves, deletes and closing the editor. */
module Studio {
  import opened Wrappers
  import Text
  import Numerals
  import opened Persistence

  /** What the naming step of `saveToVault` settles on. */
  datatype Naming =
    | Named(fileName: string)
    | Unnamed      // the prompt was cancelled or answered with nothing
    | NoOpenFile   // an update with no file open: `null.includes` throws

  /** How a call of `saveToVault` ends. */
  datatype SaveOutcome =
    | Saved(id: string)
    | NotNamed
    | NoFileToUpdate
    | StoreFailed(error: DbError)

  /** The naming step: an update reuses the open file's id; otherwise the
      `name` argument, else the trimmed value of the file-name field (None
      when the page has no such field), else the answer to the prompt (None
      when it is cancelled). */
  function ChooseFileName(name: string, field: Option<string>, isUpdate: bool,
                          openId: Option<string>, answer: Option<string>): (r: Naming)
    ensures r.NoOpenFile? <==> isUpdate && openId.None?
    ensures r.Unnamed? ==> !isUpdate
    ensures isUpdate && openId.Some? ==> r == Named(openId.value)
    ensures r.Named? && !isUpdate ==> r.fileName != ""
    ensures !isUpdate && name != "" ==> r == Named(name)
    ensures !isUpdate && name == "" && field.Some? && Text.Trim(field.value) != "" ==>
      r == Named(Text.Trim(field.value))
    ensures !isUpdate && name == "" && (field.None? || Text.Trim(field.value) == "") ==>
      r == (if answer.Some? && answer.value != "" then Named(answer.value) else Unnamed)
  {
    if isUpdate then
      match openId
      case None => NoOpenFile
      case Some(f) => Named(f)
    else
      var given := if name != "" then name else match field { case None => "" case Some(v) => Text.Trim(v) };
      if given != "" then Named(given)
      else
        match answer
        case None => Unnamed
        case Some(a) => if a == "" then Unnamed else Named(a)
  }

  /** The vault id of a file: the name as it is when it has a '.', otherwise
      the name, a '.', and the format. */
  function VaultId(fileName: string, format: string): (id: string)
    ensures '.' in id
    ensures Text.StartsWith(id, fileName)
    ensures '.' in fileName ==> id == fileName
    ensures '.' !in fileName ==> id == fileName + "." + format
  {
    if '.' in fileName then fileName else fileName + "." + format
  }

  /** The record `saveToVault` puts: id, type, format and contents, and the
      time as an ISO string. */
  function Entry(id: string, kind: string, format: string, content: string, timestamp: string): (r: Record)
    ensures r.id == Some(Str(id))
    ensures r.attrs.Keys == {"type", "mime", "data", "timestamp"}
    ensures r.attrs["type"] == TextAttr(kind) && r.attrs["mime"] == TextAttr(format)
    ensures r.attrs["data"] == TextAttr(content) && r.attrs["timestamp"] == TextAttr(timestamp)
  {
    Record(Some(Str(id)), map["type" := TextAttr(kind), "mime" := TextAttr(format),
                              "data" := TextAttr(content), "timestamp" := TextAttr(timestamp)])
  }

  /** The studio's state: the database and the id of the open file. */
  datatype Studio = Studio(db: Db, openId: Option<string>)

  /** `saveToVault`. */
  function SaveToVaultOp(s: Studio, name: string, kind: string, format: string, content: string,
                         isUpdate: bool, field: Option<string>, answer: Option<string>,
                         now: int, timestamp: string): (Studio, SaveOutcome) {
    match ChooseFileName(name, field, isUpdate, s.openId, answer)
    case Unnamed => (s, NotNamed)
    case NoOpenFile => (s, NoFileToUpdate)
    case Named(f) =>
      var id := VaultId(f, format);
      var (db', r) := SaveOp(s.db, "vault", Entry(id, kind, format, content, timestamp), now);
      match r
      case Failure(e) => (Studio(db', s.openId), StoreFailed(e))
      case Success(_) => (Studio(db', Some(id)), Saved(id))
  }

  /** `deleteItem` as written: when confirmed, `NeuralDB.delete('vault', id)`;
      only if that resolves is the open id reset. */
  function DeleteItemOp(s: Studio, id: string, confirmed: bool): (Studio, Outcome<DbError>) {
    if !confirmed then (s, Pass)
    else
      var (db', r) := DeleteOp(s.db, "vault", Str(id));
      if r.Fail? then (Studio(db', s.openId), r)
      else (Studio(db', if s.openId == Some(id) then None else s.openId), r)
  }

  /** `deleteItem` as its callers evidently intend it: the record whose id is
      shown as `id` is removed. */
  function DeleteItemIntendedOp(s: Studio, id: string, confirmed: bool): (Studio, Outcome<DbError>) {
    if !confirmed then (s, Pass)
    else
      var (db', r) := DeleteRenderedOp(s.db, "vault", id);
      if r.Fail? then (Studio(db', s.openId), r)
      else (Studio(db', if s.openId == Some(id) then None else s.openId), r)
  }

  /** A successful save stores the entry under its id, which contains a '.',
      and makes it the open file. */
  lemma SaveOpensTheSavedFile(s: Studio, name: string, kind: string, format: string, content: string,
                              isUpdate: bool, field: Option<string>, answer: Option<string>,
                              now: int, timestamp: string)
    requires SaveToVaultOp(s, name, kind, format, content, isUpdate, field, answer, now, timestamp).1.Saved?
    ensures var (s', r) := SaveToVaultOp(s, name, kind, format, content, isUpdate, field, answer, now, timestamp);
      && '.' in r.id
      && s'.openId == Some(r.id) && s'.db.connected
      && Str(r.id) in s'.db.stores["vault"]
      && s'.db.stores["vault"][Str(r.id)] == Entry(r.id, kind, format, content, timestamp)
  {
    var f := ChooseFileName(name, field, isUpdate, s.openId, answer).fileName;
    SaveIsUpsert(s.db, "vault", Entry(VaultId(f, format), kind, format, content, timestamp), now);
  }

  /** An update rewrites the open file in place: it keeps the open id (which
      already holds a '.') and replaces the record stored under it. */
  lemma UpdateKeepsTheOpenId(s: Studio, kind: string, format: string, content: string,
                             field: Option<string>, answer: Option<string>, now: int, timestamp: string, name: string)
    requires s.openId.Some? && '.' in s.openId.value
    requires SaveToVaultOp(s, name, kind, format, content, true, field, answer, now, timestamp).1.Saved?
    ensures var (s', r) := SaveToVaultOp(s, name, kind, format, content, true, field, answer, now, timestamp);
      r.id == s.openId.value && s'.openId == s.openId
  {
  }

  /** A vault id holds a '.', so `Number` of it is NaN. */
  lemma VaultIdIsNaN(fileName: string, format: string)
    ensures ToNumber(Str(VaultId(fileName, format))) == None
  {
    var id := VaultId(fileName, format);
    var i :| 0 <= i < |id| && id[i] == '.';
    Numerals.NamedIdIsNaN(id, i);
  }

  /** As written, deleting a file the studio saved never removes it: the
      delete rejects and the studio is left as it was, the file still
      stored and still open. */
  lemma DeleteOfSavedFileFails(s: Studio, name: string, kind: string, format: string, content: string,
                               isUpdate: bool, field: Option<string>, answer: Option<string>,
                               now: int, timestamp: string)
    requires SaveToVaultOp(s, name, kind, format, content, isUpdate, field, answer, now, timestamp).1.Saved?
    ensures var (s1, saved) := SaveToVaultOp(s, name, kind, format, content, isUpdate, field, answer, now, timestamp);
      s1.openId == Some(saved.id) && DeleteItemOp(s1, saved.id, true) == (s1, Fail(DataError))
  {
    SaveOpensTheSavedFile(s, name, kind, format, content, isUpdate, field, answer, now, timestamp);
    var (s1, saved) := SaveToVaultOp(s, name, kind, format, content, isUpdate, field, answer, now, timestamp);
    var f := ChooseFileName(name, field, isUpdate, s.openId, answer).fileName;
    VaultIdIsNaN(f, format);
    assert Ready(s1.db) == Success(s1.db);
    DeleteOfNaNRejects(s1.db, "vault", Str(saved.id));
  }

  /** The smallest instance: with "a.txt" open and stored, confirming its
      deletion rejects with DataError, and the file stays stored and open. */
  lemma DeleteOfATxtFails()
    ensures var rec := Entry("a.txt", "document", "txt", "notes", "2024-01-01T00:00:00.000Z");
      var d := Db(true, DbVersion, map["vault" := map[Str("a.txt") := rec], "gallery" := map[]]);
      DeleteItemOp(Studio(d, Some("a.txt")), "a.txt", true) == (Studio(d, Some("a.txt")), Fail(DataError))
  {
    var rec := Entry("a.txt", "document", "txt", "notes", "2024-01-01T00:00:00.000Z");
    var d := Db(true, DbVersion, map["vault" := map[Str("a.txt") := rec], "gallery" := map[]]);
    Numerals.NamedIdIsNaN("a.txt", 1);
    DeleteOfNaNRejects(d, "vault", Str("a.txt"));
  }

  /** The intended delete of a file the studio saved removes it and closes it. */
  lemma IntendedDeleteRemovesSavedFile(s: Studio, name: string, kind: string, format: string, content: string,
                                       isUpdate: bool, field: Option<string>, answer: Option<string>,
                                       now: int, timestamp: string)
    requires SaveToVaultOp(s, name, kind, format, content, isUpdate, field, answer, now, timestamp).1.Saved?
    ensures var (s1, saved) := SaveToVaultOp(s, name, kind, format, content, isUpdate, field, answer, now, timestamp);
      var (s2, r) := DeleteItemIntendedOp(s1, saved.id, true);
      && r == Pass
      && Str(saved.id) !in s2.db.stores["vault"]
      && s2.openId == None
  {
    SaveOpensTheSavedFile(s, name, kind, format, content, isUpdate, field, answer, now, timestamp);
    var (s1, saved) := SaveToVaultOp(s, name, kind, format, content, isUpdate, field, answer, now, timestamp);
    DeleteRenderedRemovesTheRecord(s1.db, "vault", Str(saved.id));
  }

  /** When a delete goes through, the open id no longer names the deleted
      file, and any other open file stays open. */
  lemma DeleteItemResetsOpenId(s: Studio, id: string, confirmed: bool)
    ensures var (s', r) := DeleteItemOp(s, id, confirmed);
      && (confirmed && r == Pass ==> s'.openId != Some(id))
      && (s.openId != Some(id) ==> s'.openId == s.openId)
      && (!confirmed ==> s' == s)
  {
  }

  /** The `NeuralStudio` object: the open file's id, over the database. */
  class NeuralStudio {
    var currentOpenedId: Option<string>
    const db: NeuralDB

    function State(): Studio
      reads this, db
    {
      Studio(db.State(), currentOpenedId)
    }

    ghost predicate Valid()
      reads this, db
    {
      db.Valid()
    }

    constructor (db: NeuralDB)
      requires db.Valid()
      ensures Valid() && State() == Studio(db.State(), None)
    {
      this.db := db;
      currentOpenedId := None;
    }

    method SaveToVault(name: string, kind: string, format: string, content: string, isUpdate: bool,
                       field: Option<string>, answer: Option<string>, now: int, timestamp: string)
      returns (r: SaveOutcome)
      requires Valid()
      modifies this, db
      ensures Valid()
      ensures (State(), r) == SaveToVaultOp(old(State()), name, kind, format, content, isUpdate,
                                            field, answer, now, timestamp)
    {
      var naming := ChooseFileName(name, field, isUpdate, currentOpenedId, answer);
      if naming.Unnamed? {
        return NotNamed;
      }
      if naming.NoOpenFile? {
        return NoFileToUpdate;
      }
      var fullId := VaultId(naming.fileName, format);
      var saved := db.Save("vault", Entry(fullId, kind, format, content, timestamp), now);
      if saved.Failure? {
        return StoreFailed(saved.error);
      }
      currentOpenedId := Some(fullId);
      r := Saved(fullId);
    }

    method DeleteItem(id: string, confirmed: bool) returns (r: Outcome<DbError>)
      requires Valid()
      modifies this, db
      ensures Valid()
      ensures (State(), r) == DeleteItemOp(old(State()), id, confirmed)
    {
      if !confirmed {
        return Pass;
      }
      r := db.Delete("vault", Str(id));
      if r.Fail? {
        return;
      }
      if currentOpenedId == Some(id) {
        currentOpenedId := None;
      }
    }

    /** The corrected `deleteItem` (see DeleteItemIntendedOp). */
    method DeleteItemIntended(id: string, confirmed: bool) returns (r: Outcome<DbError>)
      requires Valid()
      modifies this, db
      ensures Valid()
      ensures (State(), r) == DeleteItemIntendedOp(old(State()), id, confirmed)
    {
      if !confirmed {
        return Pass;
      }
      r := db.DeleteRendered("vault", id);
      if r.Fail? {
        return;
      }
      if currentOpenedId == Some(id) {
        currentOpenedId := None;
      }
    }

    /** `closeEditor`: no file is open afterwards. */
    method CloseEditor()
      modifies this
      ensures currentOpenedId == None
    {
      currentOpenedId := None;
    }
  }
}
