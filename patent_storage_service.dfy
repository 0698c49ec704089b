/** The ledger of registry document numbers, kept unique per category. */
module PatentStorageService {
  import opened PatentModel

  /** Some entry carries this (category, document number) key. */
  predicate HasKey(entries: seq<LedgerEntry>, category: string, documentNumber: string) {
    exists i :: 0 <= i < |entries| && entries[i].category == category && entries[i].documentNumber == documentNumber
  }

  /** No two entries share a (category, document number) key. */
  predicate UniqueKeys(entries: seq<LedgerEntry>) {
    forall i, j ::
      0 <= i < j < |entries| ==>
        entries[i].category != entries[j].category || entries[i].documentNumber != entries[j].documentNumber
  }

  /** The ledger after saveDocNumber: a new key is appended, an existing key or an unreachable database leaves it alone. */
  function Saved(entries: seq<LedgerEntry>, available: bool, category: string, documentNumber: string, isParsed: bool): (r: seq<LedgerEntry>)
    ensures UniqueKeys(entries) ==> UniqueKeys(r)
    ensures |entries| <= |r| && r[..|entries|] == entries
    ensures available ==> HasKey(r, category, documentNumber)
    ensures forall c, d :: HasKey(r, c, d) <==> HasKey(entries, c, d) || (available && c == category && d == documentNumber)
  {
    if !available || HasKey(entries, category, documentNumber) then entries
    else
      var r := entries + [LedgerEntry(category, documentNumber, isParsed)];
      assert r[|entries|].category == category && r[|entries|].documentNumber == documentNumber;
      assert forall c, d :: HasKey(entries, c, d) ==> HasKey(r, c, d) by {
        forall c, d | HasKey(entries, c, d) ensures HasKey(r, c, d) {
          var i :| 0 <= i < |entries| && entries[i].category == c && entries[i].documentNumber == d;
          assert r[i] == entries[i];
        }
      }
      r
  }

  /** Saving the same key twice leaves the ledger as saving it once. */
  lemma SaveIsIdempotent(entries: seq<LedgerEntry>, available: bool, category: string, documentNumber: string, first: bool, second: bool)
    ensures Saved(Saved(entries, available, category, documentNumber, first), available, category, documentNumber, second)
            == Saved(entries, available, category, documentNumber, first)
  {
  }

  /**
   * Saving never rewrites an entry: a key first recorded as not parsed stays
   * not parsed however often it is saved again as parsed.
   */
  lemma SaveNeverUpdatesFlag(entries: seq<LedgerEntry>, available: bool, category: string, documentNumber: string, isParsed: bool, i: int)
    requires 0 <= i < |entries|
    ensures Saved(entries, available, category, documentNumber, isParsed)[i] == entries[i]
  {
  }

  /** The entries still waiting for their detail page, in ledger order. */
  function Unparsed(entries: seq<LedgerEntry>): (r: seq<nat>)
    ensures forall k :: 0 <= k < |r| ==> r[k] < |entries| && !entries[r[k]].isParsed
    ensures forall i :: 0 <= i < |entries| && !entries[i].isParsed ==> i in r
    ensures forall k, l :: 0 <= k < l < |r| ==> r[k] < r[l]
  {
    if entries == [] then []
    else
      var front := Unparsed(entries[..|entries| - 1]);
      assert forall k :: 0 <= k < |front| ==> entries[front[k]] == entries[..|entries| - 1][front[k]];
      if entries[|entries| - 1].isParsed then front else front + [|entries| - 1]
  }

  /** The ledger table, behind a database that may refuse every call. */
  class DocNumberStore {
    var entries: seq<LedgerEntry>
    /** Whether the database answers; when it does not, saveDocNumber logs the error and carries on. */
    var available: bool

    predicate Valid()
      reads this
    {
      UniqueKeys(entries)
    }

    constructor (available: bool)
      ensures Valid() && entries == [] && this.available == available
    {
      entries := [];
      this.available := available;
    }

    /**
     * saveDocNumber: check whether the key is already recorded and insert it
     * only when it is not; a database failure is swallowed.
     */
    method SaveDocNumber(category: string, documentNumber: string, isParsed: bool)
      requires Valid()
      modifies this`entries
      ensures Valid()
      ensures entries == Saved(old(entries), available, category, documentNumber, isParsed)
    {
      if !available {
        return;
      }
      if HasKey(entries, category, documentNumber) {
        return;
      }
      entries := entries + [LedgerEntry(category, documentNumber, isParsed)];
    }

    /** setParsed(true) followed by save on one stored entry; a database failure leaves it unchanged. */
    method MarkParsed(i: nat) returns (saved: bool)
      requires Valid() && i < |entries|
      modifies this`entries
      ensures Valid()
      ensures saved == available
      ensures entries == if available then old(entries)[i := old(entries)[i].(isParsed := true)] else old(entries)
    {
      saved := available;
      if available {
        entries := entries[i := entries[i].(isParsed := true)];
        assert forall k :: 0 <= k < |entries| ==>
                             entries[k].category == old(entries)[k].category &&
                             entries[k].documentNumber == old(entries)[k].documentNumber;
      }
    }
  }
}
