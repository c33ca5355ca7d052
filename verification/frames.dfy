/** The wire envelope of the realtime channel, for persistent documents. */
module Frames {
  import opened Texts
  import opened Cursor
  import opened Documents

  /** A cursor per collection; `None` is the `null` of a collection never seen before. */
  type Cursors = map<Text, Option<Text>>

  datatype Frame =
    | Data(id: Text, doc: Option<Doc>, collections: seq<Text>, cursor: Option<Text>)
    | Hello(actorId: Text)
    | Subscribe(collectionId: Text)
    | Unsubscribe(collectionId: Text)
    | Resume(since: Cursors)
    | Resumed(cursors: Cursors)

  /** `buildDataFrame`: the cursor is attached when the event carries a timestamp. `None` is the
      exception `encodeCursor` throws. */
  function BuildDataFrame(event: Change): (frame: Option<Frame>)
    ensures event.ts.None? ==> frame == Some(Data(event.id, event.doc, event.collections, None))
  {
    if event.ts.None? then Some(Data(event.id, event.doc, event.collections, None))
    else
      var cursor := EncodeCursor(event.ts.value, event.id);
      if cursor.None? then None
      else Some(Data(event.id, event.doc, event.collections, cursor))
  }

  /** A live frame carries the very cursor its entry has in the collection's listing. */
  lemma LiveCursorMatchesIndex(doc: Doc, collections: seq<Text>, ts: int)
    requires doc.id != []
    ensures BuildDataFrame(Change(doc.id, Some(doc), collections, Some(ts)))
         == if Encodable(ts)
            then Some(Data(doc.id, Some(doc), collections, Some(CursorOf(Entry(ts, doc.id)))))
            else None
  {
    EncodeCursorIs(ts, doc.id);
  }
}
