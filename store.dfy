/** The register_data table as the client changes it: a row per insert, batch
    deletion and deletion of everything (client_new.py:182-185, 207-224, 285-298),
    and one pass of the polling loop that may insert. */
module Store {

  import opened Basics
  import opened Numerics
  import opened RegisterCodec
  import opened Clock
  import opened Schema
  import opened Queries
  import opened Ingest

  /** The id SQLite gives the next insert into a table whose integer primary key
      is its rowid: one more than the largest id present, 1 in an empty table. */
  function NextRowId(rows: seq<Row>): (id: nat)
    requires IdsIncreasing(rows)
    ensures id >= 1
    ensures forall k :: 0 <= k < |rows| ==> rows[k].id < id
  {
    if rows == [] then 1 else rows[|rows| - 1].id + 1
  }

  /** Appending a row under the next id keeps the table in id order. */
  lemma AppendKeepsIdsIncreasing(rows: seq<Row>, data: Payload)
    requires IdsIncreasing(rows)
    ensures IdsIncreasing(rows + [Row(NextRowId(rows), data)])
  {
    var grown := rows + [Row(NextRowId(rows), data)];
    forall i, j | 0 <= i < j < |grown|
      ensures grown[i].id < grown[j].id
    {
      if j < |rows| {
        assert grown[i] == rows[i] && grown[j] == rows[j];
      }
    }
  }

  class RegisterTable {

    /** The rows in id order. */
    var rows: seq<Row>

    ghost predicate Valid()
      reads this
    {
      IdsIncreasing(rows)
    }

    constructor()
      ensures Valid() && rows == []
    {
      rows := [];
    }

    /** register_data.insert().values(**payload): the row reads back with the
        next id and every NaN register as NULL. */
    method Insert(p: Payload) returns (id: nat)
      requires Valid()
      modifies this
      ensures Valid()
      ensures id == NextRowId(old(rows))
      ensures rows == old(rows) + [Row(id, Stored(p))]
    {
      id := NextRowId(rows);
      AppendKeepsIdsIncreasing(rows, Stored(p));
      rows := rows + [Row(id, Stored(p))];
    }

    /** delete_data(batch): removes exactly the rows of that batch and keeps the
        others in order. */
    method DeleteBatch(batch: string)
      requires Valid()
      modifies this
      ensures Valid()
      ensures rows == Select(old(rows), batch, false)
      ensures forall r :: r in rows <==> r in old(rows) && r.data.batchId != batch
    {
      SelectIdsIncreasing(rows, batch, false);
      SelectMembers(rows, batch, false);
      rows := Select(rows, batch, false);
    }

    /** The /del_batch route: a missing or empty batch_id deletes nothing. */
    method DelBatchRoute(batchArg: Option<string>)
      requires Valid()
      modifies this
      ensures Valid()
      ensures rows == if batchArg.Some? && batchArg.value != "" then Select(old(rows), batchArg.value, false)
                      else old(rows)
    {
      if batchArg.Some? && batchArg.value != "" {
        DeleteBatch(batchArg.value);
      }
    }

    /** delete_all_data(). */
    method DeleteAll()
      requires Valid()
      modifies this
      ensures Valid() && rows == []
    {
      rows := [];
    }

    /** One pass of the polling loop: decode the read, test the trigger, build the
        payload and insert it, unless a process flag overflows its INTEGER column.
        The table changes only when a row is inserted. */
    method PollCycle(read: Option<seq<Word>>, now: Instant, asFloat: Pattern -> Float) returns (outcome: CycleOutcome)
      requires Valid()
      modifies this
      ensures Valid()
      ensures outcome == Cycle(read, now, asFloat)
      ensures outcome.Inserted? ==> rows == old(rows) + [Row(NextRowId(old(rows)), Stored(outcome.payload))]
      ensures !outcome.Inserted? ==> rows == old(rows)
    {
      if read.None? || read.value == [] {
        return NoData;
      }
      var decoded := DecodeReading(read.value, asFloat);
      if decoded.Err? {
        return Faulted(decoded.error);
      }
      var persist := ShouldPersist(decoded.value);
      if persist.Err? {
        return Faulted(persist.error);
      }
      if !persist.value {
        return Skipped;
      }
      var built := BuildPayload(decoded.value, now);
      if built.Err? {
        return Faulted(built.error);
      }
      if !FitsInteger(built.value.processStart) {
        return Faulted(OverflowFault(built.value.processStart));
      }
      if !FitsInteger(built.value.processEnd) {
        return Faulted(OverflowFault(built.value.processEnd));
      }
      var _ := Insert(built.value);
      outcome := Inserted(built.value);
    }
  }
}
