/** The file store object: one path, one chain of appends, one probe (`journal/store.ts`). */
module JournalStore {
  import opened Wrappers
  import opened Codec
  import opened Store

  datatype PathError = EmptyPath

  /** How `appendFile` ends: everything written, or a rejection with some characters on file. */
  datatype WriteOutcome = Wrote | Rejected(written: nat)

  /** What an append starts from: a store that has still to probe a file it cannot open takes it for terminated. */
  function Found(st: StoreState, openable: bool): StoreState {
    if st.terminated.None? && !openable then st.(terminated := Some(true)) else st
  }

  class FileJournalStore {
    const path: string
    /** The contents of the file at `path`; absent until something creates it. */
    var file: Option<string>
    /** Absent until the first append probes the file's last character; whatever cannot be opened counts as terminated. */
    var terminated: Option<bool>
    /** The chain of appends: the entries still to be written, oldest first. */
    var tail: seq<Entry>

    constructor (path: string, file: Option<string>)
      requires !Blank(path)
      ensures this.path == path && State() == StoreState(file, None) && tail == []
    {
      this.path := path;
      this.file := file;
      this.terminated := None;
      this.tail := [];
    }

    ghost function State(): StoreState
      reads this
    {
      StoreState(file, terminated)
    }

    /** `openable`: whether an existing file can be opened for reading. */
    method ProbeTerminated(openable: bool) returns (closed: bool)
      ensures closed <==> file.None? || !openable || file.value == "" || file.value[|file.value| - 1] == '\n'
    {
      if file.None? || !openable {
        return true;
      }
      var size := |file.value|;
      if size == 0 {
        return true;
      }
      closed := file.value[size - 1] == '\n';
    }

    /** Queue behind every earlier append. */
    method Append(entry: Entry)
      modifies this`tail
      ensures tail == old(tail) + [entry]
    {
      tail := tail + [entry];
    }

    /** Write the oldest queued entry; a rejection does not stop the ones behind it. */
    method AppendNow(openable: bool, io: WriteOutcome) returns (ok: bool)
      requires tail != []
      requires io.Rejected? ==> io.written <= |Chunk(Terminated(Found(State(), openable)), tail[0])|
      modifies this
      ensures tail == old(tail)[1..] && ok == io.Wrote?
      ensures State() == if io.Wrote? then Appended(Found(old(State()), openable), old(tail)[0])
                         else AppendFailed(Found(old(State()), openable), old(tail)[0], io.written)
    {
      var entry := tail[0];
      tail := tail[1..];
      if terminated.None? {
        var closed := ProbeTerminated(openable);
        terminated := Some(closed);
      }
      var line := (if terminated.value then "" else "\n") + Encode(entry) + "\n";
      var before := if file.Some? then file.value else "";
      if io.Rejected? {
        file := Some(before + line[..io.written]);
        return false;
      }
      file := Some(before + line);
      terminated := Some(true);
      ok := true;
    }

    /** An absent journal is an empty one; any other failure to open it is reported as damage. */
    method Read(readable: bool) returns (r: ReadResult)
      ensures file.None? ==> r == ReadResult([], [])
      ensures file.Some? && !readable ==> r == ReadResult([], [FileDamage])
      ensures file.Some? && readable ==> r == ReadOf(Items(file.value))
    {
      if file.None? {
        return ReadResult([], []);
      }
      if !readable {
        return ReadResult([], [FileDamage]);
      }
      r := DecodeJournalText(file.value);
    }
  }

  method CreateFileJournalStore(path: string, file: Option<string>) returns (r: Result<FileJournalStore, PathError>)
    ensures r.Err? <==> Blank(path)
    ensures r.Ok? ==> fresh(r.value) && r.value.path == path && r.value.State() == StoreState(file, None)
  {
    if Blank(path) {
      return Err(EmptyPath);
    }
    var store := new FileJournalStore(path, file);
    r := Ok(store);
  }

  /** A file some append left open, met by a later store object. */
  function TornFile(file: Option<string>, lost: Entry, k: nat): StoreState
    requires k <= |Chunk(true, lost)|
  {
    StoreState(Some(Text(file) + Chunk(true, lost)[..k]), None)
  }

  /**
   The probe keeps a torn last line away from the next record only if it can open the file. Appended to a
   file that may be written but not read, the record is read back exactly when the torn append had written
   nothing or everything.
   */
  lemma UnopenedExact(file: Option<string>, lost: Entry, k: nat, next: Entry)
    requires Closed(Text(file)) && WellFormed(lost) && WellFormed(next)
    requires k <= |Chunk(true, lost)|
    ensures EntriesOnFile(Appended(Found(TornFile(file, lost, k), false), next)) == BothRead(StoreState(file, Some(true)), lost, k, next)
       <==> k == 0 || k == |Chunk(true, lost)|
    ensures EntriesOnFile(Appended(Found(TornFile(file, lost, k), true), next)) == BothRead(StoreState(file, Some(true)), lost, k, next)
  {
    var st := StoreState(file, Some(true));
    FailedAppendExact(st, lost, k, next);
    assert Found(TornFile(file, lost, k), false) == AppendFailed(st, lost, k);
    AppendedPrefix(st, lost, k);
    AppendedWhole(TornFile(file, lost, k), next);
  }
}
