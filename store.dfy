/**
 * The message store of the contact backend: a JSON file holding an array of
 * records. `readMessages` reads it (a missing file or non-array content reads
 * as no records) and `appendMessage` reads, pushes one record and writes the
 * whole array back. The file's contents are abstracted to `FileState`.
 */
module Store {
  import opened Wrappers
  import opened Validation

  /** A persisted record: `{ id, createdAt, delivery, ...payload }`. */
  datatype StoredMessage = StoredMessage(
    id: string, createdAt: string, delivery: string,
    name: string, email: string, subject: string, message: string)

  /** The clock readings taken when a submission is accepted:
      `Date.now().toString()` and `new Date().toISOString()`. */
  datatype Stamp = Stamp(id: string, createdAt: string)

  /** What the messages file holds, as `readMessages` sees it. `Unreadable`
      stands for any read failure other than a missing file, and for text that
      is not valid JSON. */
  datatype FileState = NoFile | NotArray | Records(entries: seq<StoredMessage>) | Unreadable

  datatype StoreError = ReadError | WriteError

  /** How the final `writeFile` went; a failed write leaves the file in the state it names. */
  datatype WriteResult = Written | NotWritten(left: FileState)

  const Stored := "stored"

  /** The record built for an accepted payload. */
  function NewRecord(p: Payload, at: Stamp): (m: StoredMessage)
    ensures m.delivery == Stored && m.id == at.id && m.createdAt == at.createdAt
    ensures Payload(m.name, m.email, m.subject, m.message) == p
  {
    StoredMessage(at.id, at.createdAt, Stored, p.name, p.email, p.subject, p.message)
  }

  /** `readMessages`. */
  function ReadMessages(f: FileState): (r: Result<seq<StoredMessage>, StoreError>)
    ensures r.Failure? <==> f.Unreadable?
    ensures r.Failure? ==> r.error == ReadError
    ensures r.Success? && r.value != [] ==> f == Records(r.value)
    ensures f.Records? ==> r == Success(f.entries)
    ensures f.NoFile? || f.NotArray? ==> r == Success([])
  {
    match f
    case NoFile => Success([])
    case NotArray => Success([])
    case Records(entries) => Success(entries)
    case Unreadable => Failure(ReadError)
  }

  /** The file after a successful append: the records read, then the new one. */
  function Appended(f: FileState, entry: StoredMessage): (g: FileState)
    requires ReadMessages(f).Success?
    ensures g.Records? && g.entries != []
    ensures ReadMessages(g) == Success(ReadMessages(f).value + [entry])
  {
    Records(ReadMessages(f).value + [entry])
  }

  /** The file after appending `entries` one after the other, all writes succeeding. */
  function AppendAll(f: FileState, entries: seq<StoredMessage>): (g: FileState)
    requires ReadMessages(f).Success?
    ensures ReadMessages(g).Success?
  {
    if entries == [] then f
    else Appended(AppendAll(f, entries[..|entries| - 1]), entries[|entries| - 1])
  }

  /** Appends only ever add at the end: after a run of appends the file reads as
      the earlier records, unchanged, followed by the new ones in order. */
  lemma {:induction false} AppendAllReads(f: FileState, entries: seq<StoredMessage>)
    requires ReadMessages(f).Success?
    ensures ReadMessages(AppendAll(f, entries)) == Success(ReadMessages(f).value + entries)
  {
    if entries != [] {
      var init := entries[..|entries| - 1];
      AppendAllReads(f, init);
      var before := AppendAll(f, init);
      assert AppendAll(f, entries) == Appended(before, entries[|entries| - 1]);
      assert ReadMessages(f).value + entries == (ReadMessages(f).value + init) + [entries[|entries| - 1]];
    } else {
      assert ReadMessages(f).value + entries == ReadMessages(f).value;
    }
  }

  /** A fresh store (no file yet) that receives N records holds exactly those N, in order. */
  lemma FreshStoreHoldsAppends(entries: seq<StoredMessage>)
    ensures ReadMessages(NoFile) == Success([])
    ensures ReadMessages(AppendAll(NoFile, entries)) == Success(entries)
  {
    AppendAllReads(NoFile, entries);
    assert [] + entries == entries;
  }

  /** The store as the backend holds it: the state of the messages file. */
  class MessageStore {
    var file: FileState

    constructor (initial: FileState)
      ensures file == initial
    {
      file := initial;
    }

    /** What `readMessages` returns now. */
    function Messages(): Result<seq<StoredMessage>, StoreError>
      reads this
    {
      ReadMessages(file)
    }

    /** `appendMessage`: read the array, push the entry, write the array back.
        A read failure leaves the file alone. */
    method Append(entry: StoredMessage, write: WriteResult) returns (r: Result<(), StoreError>)
      modifies this
      ensures r.Success? <==> old(Messages()).Success? && write.Written?
      ensures r.Success? ==> file == Appended(old(file), entry)
      ensures old(Messages()).Failure? ==> r == Failure(ReadError) && file == old(file)
      ensures old(Messages()).Success? && write.NotWritten? ==> r == Failure(WriteError) && file == write.left
    {
      var read := ReadMessages(file);
      if read.Failure? {
        return Failure(read.error);
      }
      var data := read.value;
      data := data + [entry];
      match write
      case Written =>
        file := Records(data);
        r := Success(());
      case NotWritten(left) =>
        file := left;
        r := Failure(WriteError);
    }
  }
}
