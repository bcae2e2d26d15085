/** classes/existing_streams.cs: the append-only record of stream ids already announced.
    The source keeps it in a static array, so every `SentStreams` object reads and writes
    the same record; here that record is one `SentStreamsRecord` object that every
    `SentStreams` refers to. */
module ExistingStreams {

  /** The static `sent_streams` array. */
  class SentStreamsRecord {
    var ids: seq<string>

    /** The static initialiser: nothing sent yet. */
    constructor ()
      ensures ids == []
    {
      ids := [];
    }
  }

  class SentStreams {
    const record: SentStreamsRecord

    constructor (record: SentStreamsRecord)
      ensures this.record == record
    {
      this.record := record;
    }

    /** `StreamIsSent`: whether the id has been recorded. */
    method StreamIsSent(id: string) returns (sent: bool)
      ensures sent <==> exists i :: 0 <= i < |record.ids| && record.ids[i] == id
    {
      sent := id in record.ids;
    }

    /** `StreamSent`: the id goes at the end, even when it is already recorded. */
    method StreamSent(id: string)
      modifies record
      ensures record.ids == old(record.ids) + [id]
    {
      record.ids := record.ids + [id];
    }
  }

  /** Two `SentStreams` objects share the record: what one marks as sent, the other sees,
      and a repeated mark still grows the record. */
  method SharedBetweenInstances(id: string, other: string) returns (seen: bool, otherSeen: bool, length: nat)
    requires other != id
    ensures seen && !otherSeen && length == 2
  {
    var record := new SentStreamsRecord();
    var first := new SentStreams(record);
    var second := new SentStreams(record);
    first.StreamSent(id);
    assert record.ids[0] == id;
    seen := second.StreamIsSent(id);
    otherSeen := second.StreamIsSent(other);
    second.StreamSent(id);
    length := |record.ids|;
  }
}
