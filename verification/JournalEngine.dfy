/** The journal hook and its replay (`journal/engine.ts`). */
module JournalEngine {
  import opened Wrappers
  import opened Operation
  import opened Codec
  import opened Store
  import opened JournalStore
  import opened Recovery

  class JournalEngine {
    const store: FileJournalStore

    constructor (store: FileJournalStore)
      ensures this.store == store
    {
      this.store := store;
    }

    /** The hook the operation engine calls at `started` (no result yet) and at `completed`. */
    method Record(x: Execution, generation: Generation, result: Option<OpResult>, now: nat)
      modifies store`tail
      ensures store.tail == old(store.tail) + [EntryFor(x, generation, result, now)]
    {
      store.Append(EntryFor(x, generation, result, now));
    }

    /**
     What a later process learns from the file: the modems that must be reconciled, and every damaged
     line, where and why. A file that exists but cannot be opened names no modem, and is itself the damage.
     */
    method Recover(readable: bool) returns (r: Report)
      ensures store.file.None? || readable ==>
                && Reports(EntriesOnFile(store.State()), r)
                && r.reconciliationRequired == Required(EntriesOnFile(store.State()))
                && r.damage == DamageIn(store.file) && |r.damage| == DamageOnFile(store.State())
      ensures store.file.Some? && !readable ==>
                r.records == [] && r.reconciliationRequired == [] && r.damage == [FileDamage]
    {
      var read := store.Read(readable);
      r := ReconstructRecovery(read);
      if store.file.None? || readable {
        RecoverReads(store.file, read);
      }
    }
  }

  /** The damaged lines of a file, in order; an absent file has none. */
  function DamageIn(file: Option<string>): seq<Damage> {
    if file.None? then [] else ReadOf(Items(file.value)).damage
  }

  /** A read of a file reports the entries and the damage that are on it. */
  lemma RecoverReads(file: Option<string>, read: ReadResult)
    requires read == if file.None? then ReadResult([], []) else ReadOf(Items(file.value))
    ensures EntriesIn(read.entries) == EntriesOnFile(StoreState(file, None))
    ensures |read.damage| == DamageOnFile(StoreState(file, None))
  {
    var items := Items(Text(file));
    ReadReports(items, |items|, LastPopulated(items));
    assert items[..|items|] == items;
    if file.None? {
      assert Split("") == [""];
      assert ItemOf("") == Nothing;
    }
  }
}
