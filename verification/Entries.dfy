/** The entries of a session manifest, and the session totals derived from them. */
module Entries {
  import opened Wrappers
  import opened Bytes
  import opened Paths
  import opened Model
  import opened Plan
  import opened Ids
  import opened Layout

  datatype QuarantineEntry = QuarantineEntry(
    id: string, original: Path, stored: Option<Path>, restoredTo: Option<Path>, size: u64,
    status: ItemStatus, error: Option<ItemErrorCode>)

  datatype SessionState = InProgress | Complete | Restoring | Expired | UnknownState(token: string)

  datatype Session = Session(
    id: string, createdAt: int, expiresAt: int, total: u64, itemCount: nat,
    state: SessionState, entries: seq<QuarantineEntry>)

  /** What may be stored as a manifest: `expired` is derived at read time. */
  predicate ValidManifest(s: Session) {
    !s.state.Expired?
  }

  /** The sizes of the entries that still have a stored path. */
  function HeldSizes(entries: seq<QuarantineEntry>): seq<u64> {
    if entries == [] then []
    else (if entries[0].stored.Some? then [entries[0].size] else []) + HeldSizes(entries[1..])
  }

  function HeldBytes(entries: seq<QuarantineEntry>): u64 {
    SatFold(0, HeldSizes(entries))
  }

  /** What each entry holds: its size while it has a stored path, and otherwise nothing. */
  function StoredSizes(entries: seq<QuarantineEntry>): (s: seq<u64>)
    ensures |s| == |entries| && forall i :: 0 <= i < |s| ==> s[i] == if entries[i].stored.Some? then entries[i].size else 0
  {
    seq(|entries|, i requires 0 <= i < |entries| => if entries[i].stored.Some? then entries[i].size else 0)
  }

  /** A session's bytes are the exact sum of what its entries hold, capped once. */
  lemma {:induction false} HeldExactly(entries: seq<QuarantineEntry>)
    ensures Sum(HeldSizes(entries)) == Sum(StoredSizes(entries))
    ensures HeldBytes(entries) == Cap(Sum(StoredSizes(entries)))
  {
    SatFoldIsCappedSum(0, HeldSizes(entries));
    if entries != [] {
      HeldExactly(entries[1..]);
      assert StoredSizes(entries)[1..] == StoredSizes(entries[1..]);
      var first := if entries[0].stored.Some? then [entries[0].size] else [];
      SumConcat(first, HeldSizes(entries[1..]));
    }
  }

  function WithEntries(s: Session, entries: seq<QuarantineEntry>): Session {
    s.(total := HeldBytes(entries), itemCount := |entries|, entries := entries)
  }

  function WithEntry(s: Session, position: nat, entry: QuarantineEntry): Session {
    WithEntries(s, if position < |s.entries| then s.entries[position := entry] else s.entries)
  }

  /** The entry of plan item `index` at `position` of the session: nothing moved yet. */
  function PlannedEntry(plan: CleanPlan, index: nat, position: nat, calendar: Calendar)
    : Result<QuarantineEntry, BrozaError>
  {
    if index >= |plan.items| then Err(Other)
    else
      var item := plan.items[index];
      var sequence :- SequenceOf(position);
      var id :- EntryId(plan.sessionId, sequence, calendar);
      Ok(QuarantineEntry(id, item.path, None, None, item.size, Planned, None))
  }

  /** `planned_entries`: one entry per index, or the failure of one of them. */
  function PlannedEntries(plan: CleanPlan, indices: seq<nat>, calendar: Calendar)
    : Result<seq<QuarantineEntry>, BrozaError>
  {
    if forall i :: 0 <= i < |indices| ==> PlannedEntry(plan, indices[i], i, calendar).Ok?
    then
      Ok(seq(|indices|, i requires 0 <= i < |indices|
          && PlannedEntry(plan, indices[i], i, calendar).Ok? => PlannedEntry(plan, indices[i], i, calendar).value))
    else Err(Other)
  }

  /**
   * Entries exist exactly when every index names an item and the numbers fit a
   * `u32`; the entry at position `i` carries the `i`-th index's item under
   * number `i + 1`, and a new session holds nothing.
   */
  lemma PlannedEntriesAreNumbered(plan: CleanPlan, indices: seq<nat>, calendar: Calendar)
    requires IsSessionId(plan.sessionId, calendar)
    ensures PlannedEntries(plan, indices, calendar).Ok? <==>
            && (forall i :: 0 <= i < |indices| ==> indices[i] < |plan.items|)
            && |indices| <= U32_MAX
    ensures PlannedEntries(plan, indices, calendar).Err? ==> PlannedEntries(plan, indices, calendar).error == Other
    ensures PlannedEntries(plan, indices, calendar).Ok? ==>
              var entries := PlannedEntries(plan, indices, calendar).value;
              && |entries| == |indices|
              && HeldBytes(entries) == 0
              && forall i :: 0 <= i < |entries| ==>
                  && entries[i].id == EntryIdText(plan.sessionId, i + FIRST_SEQUENCE)
                  && entries[i].original == plan.items[indices[i]].path
                  && entries[i].size == plan.items[indices[i]].size
                  && entries[i].stored.None? && entries[i].status.Planned? && entries[i].error.None?
  {
    hide IsSessionId, IsEntryId, EntryIdText;
    forall i | 0 <= i < |indices|
      ensures PlannedEntry(plan, indices[i], i, calendar).Ok? <==> indices[i] < |plan.items| && i < U32_MAX
      ensures PlannedEntry(plan, indices[i], i, calendar).Ok? ==>
                PlannedEntry(plan, indices[i], i, calendar).value.id
                == EntryIdText(plan.sessionId, i + FIRST_SEQUENCE)
    {
      if i < U32_MAX {
        EntryIdRoundTrip(plan.sessionId, i + FIRST_SEQUENCE, calendar);
      }
    }
    if |indices| > U32_MAX {
      assert PlannedEntry(plan, indices[U32_MAX], U32_MAX, calendar).Err?;
    }
    if PlannedEntries(plan, indices, calendar).Ok? {
      NothingHeld(PlannedEntries(plan, indices, calendar).value);
    }
  }

  lemma {:induction false} NothingHeld(entries: seq<QuarantineEntry>)
    requires forall i :: 0 <= i < |entries| ==> entries[i].stored.None?
    ensures HeldSizes(entries) == []
  {
    if entries != [] {
      NothingHeld(entries[1..]);
    }
  }
}
