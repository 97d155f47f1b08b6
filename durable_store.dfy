/** The durable store as the scheduled-retry path sees it: `ScheduleJob` persists an envelope as a
    scheduled job that any node may pick up. */
module Persistence {
  import opened Wrappers
  import opened Messaging

  /** The persisted row of one envelope. */
  datatype EnvelopeRecord = EnvelopeRecord(id: nat, executionTime: Option<DateTime>, status: EnvelopeStatus, ownerId: int)

  /** The first persisted row for `id`, the way the tests look it up among the incoming rows. */
  function FindRecord(records: seq<EnvelopeRecord>, id: nat): (r: Option<EnvelopeRecord>)
    ensures r.Some? ==> r.value.id == id
    ensures r.Some? ==> exists i :: 0 <= i < |records| && records[i] == r.value &&
                                   forall j :: 0 <= j < i ==> records[j].id != id
    ensures r.None? <==> forall x :: x in records ==> x.id != id
  {
    if records == [] then None
    else if records[0].id == id then Some(records[0])
    else
      var r := FindRecord(records[1..], id);
      assert r.Some? ==> exists i :: 1 <= i < |records| && records[i] == r.value &&
                                     forall j :: 0 <= j < i ==> records[j].id != id by {
        if r.Some? {
          var i :| 0 <= i < |records[1..]| && records[1..][i] == r.value &&
                   forall j :: 0 <= j < i ==> records[1..][j].id != id;
          assert forall j :: 1 <= j < i + 1 ==> records[j] == records[1..][j - 1];
        }
      }
      assert r.None? ==> forall x :: x in records ==> x.id != id by {
        if r.None? {
          forall x | x in records ensures x.id != id {
            if x != records[0] {
              var i :| 0 <= i < |records| && records[i] == x;
              assert records[1..][i - 1] == x;
            }
          }
        }
      }
      r
  }

  /** The row `ScheduleJob` writes for an envelope: scheduled and owned by any node. */
  function ScheduledRecord(id: nat, executionTime: Option<DateTime>): (r: EnvelopeRecord)
    ensures r.status == Scheduled && r.ownerId == AnyNode
    ensures r.id == id && r.executionTime == executionTime
  {
    EnvelopeRecord(id, executionTime, Scheduled, AnyNode)
  }

  class DurableStore {
    /** The rows of the incoming table, in insertion order. */
    var incoming: seq<EnvelopeRecord>

    constructor ()
      ensures incoming == []
    {
      incoming := [];
    }

    /** `AllIncomingEnvelopes()`: every stored row, in the order stored. */
    function AllIncomingEnvelopes(): (rows: seq<EnvelopeRecord>)
      reads this
      ensures rows == incoming
    {
      incoming
    }

    /** `ScheduleJob(envelope)`: one scheduled row, owned by any node, for the envelope as it is now. */
    method ScheduleJob(envelope: Envelope)
      modifies this
      ensures incoming == old(incoming) + [ScheduledRecord(envelope.id, envelope.executionTime)]
    {
      incoming := incoming + [ScheduledRecord(envelope.id, envelope.executionTime)];
    }
  }

  /** After a job is scheduled into a store holding no row for its id, looking the id up finds a row
      in `Scheduled` status, owned by any node, due at the envelope's execution time. */
  lemma {:induction false} ScheduledJobIsFound(records: seq<EnvelopeRecord>, id: nat, executionTime: Option<DateTime>)
    requires forall x :: x in records ==> x.id != id
    ensures var found := FindRecord(records + [ScheduledRecord(id, executionTime)], id);
            && found.Some?
            && found.value.status == Scheduled
            && found.value.ownerId == AnyNode
            && found.value.executionTime == executionTime
  {
    if records == [] {
      assert records + [ScheduledRecord(id, executionTime)] == [ScheduledRecord(id, executionTime)];
    } else {
      assert records[0] in records;
      assert forall x :: x in records[1..] ==> x in records;
      ScheduledJobIsFound(records[1..], id, executionTime);
      assert (records + [ScheduledRecord(id, executionTime)])[1..] == records[1..] + [ScheduledRecord(id, executionTime)];
    }
  }
}
