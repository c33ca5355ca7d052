/** What the store holds: documents, and the record kept for each of them. */
module Documents {
  import opened Texts

  /** An AS2 document as far as the sync code looks into it. `content` stands for all members
      nothing here reads; the other constructors are the bookkeeping documents that the client
      and the delivery queue keep in the same store. */
  datatype Doc =
    | Note(id: Text, content: Text)
    | OutboxEntry(id: Text, targetId: Text, doc: Doc, collections: seq<Text>, ts: int)
    | CursorMark(id: Text, cursor: Text)
    | QueueEntry(id: Text, activity: Text, recipients: seq<Text>, attempts: nat, nextAttemptAt: int,
                 lastError: Option<Text>)

  datatype Record = Record(ts: int, doc: Doc, collections: seq<Text>)

  type Records = map<Text, Record>

  /** A `change` event of a persistent write: `doc` is absent on delete, and so is `ts`. */
  datatype Change = Change(id: Text, doc: Option<Doc>, collections: seq<Text>, ts: Option<int>)

  /** How a store operation ends: `RangeError` is the exception thrown by `encodeCursor`. */
  datatype Outcome = Done | IdRequired | RangeError
}
