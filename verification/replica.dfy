/** The client's side of the data: its copies of documents and the cursor it saved for each
    collection, both kept as documents of its own store. */
module Replicas {
  import opened Texts
  import opened Documents
  import opened Frames

  const CURSOR_PREFIX: Text := Ascii("urn:qu:client-cursor:")

  datatype Copy = Copy(doc: Doc, collections: seq<Text>)
  datatype Replica = Replica(docs: map<Text, Copy>, cursors: map<Text, Text>)

  function CursorId(c: Text): Text {
    CURSOR_PREFIX + c
  }

  predicate IsCursorId(id: Text) {
    CURSOR_PREFIX <= id
  }

  /** `#getCursor`. */
  function GetCursor(records: Records, c: Text): Option<Text> {
    var id := CursorId(c);
    if id in records && records[id].doc.CursorMark? then Some(records[id].doc.cursor) else None
  }

  function NamedCursors(records: Records): set<Text> {
    set id | id in records && IsCursorId(id) && records[id].doc.CursorMark? :: id[|CURSOR_PREFIX|..]
  }

  /** The ordinary documents of the store. */
  ghost function ViewDocs(records: Records): map<Text, Copy> {
    map id | id in records && !IsCursorId(id) :: Copy(records[id].doc, records[id].collections)
  }

  /** The cursor marks of the store, by collection. */
  ghost function ViewCursors(records: Records): (cursors: map<Text, Text>)
    ensures forall c :: c in cursors <==> GetCursor(records, c).Some?
    ensures forall c :: c in cursors ==> cursors[c] == GetCursor(records, c).value
  {
    forall c
      ensures c in NamedCursors(records) <==> GetCursor(records, c).Some?
    {
      CursorNamed(records, c);
    }
    map c | c in NamedCursors(records) :: GetCursor(records, c).value
  }

  /** The store as a replica: ordinary documents on one side, cursor marks on the other. */
  ghost function View(records: Records): Replica {
    Replica(ViewDocs(records), ViewCursors(records))
  }

  lemma CursorNamed(records: Records, c: Text)
    ensures c in NamedCursors(records) <==> GetCursor(records, c).Some?
  {
    assert CursorId(c)[|CURSOR_PREFIX|..] == c;
    if c in NamedCursors(records) {
      var id :| id in records && IsCursorId(id) && records[id].doc.CursorMark? && id[|CURSOR_PREFIX|..] == c;
      assert id == CursorId(c);
    }
  }

  lemma CursorIdInjective(c: Text, d: Text)
    ensures CursorId(c) == CursorId(d) <==> c == d
  {
    assert CursorId(c)[|CURSOR_PREFIX|..] == c && CursorId(d)[|CURSOR_PREFIX|..] == d;
  }

  // ---------------------------------------------------------------- applying a frame

  /** The loop over a data frame's collections: remember the cursor of each subscribed one. */
  function MarkAll(cursors: map<Text, Text>, cs: seq<Text>, subscribed: set<Text>, cursor: Text): map<Text, Text> {
    if cs == [] then cursors
    else
      var rest := MarkAll(cursors, cs[..|cs| - 1], subscribed, cursor);
      if cs[|cs| - 1] in subscribed then rest[cs[|cs| - 1] := cursor] else rest
  }

  /** What a `resumed` frame leaves: its cursors, where it has one. */
  function Adopt(cursors: map<Text, Text>, resumed: Cursors): map<Text, Text> {
    map c | c in cursors.Keys + resumed.Keys && (c in cursors || Usable(resumed[c])) ::
      if c in resumed && Usable(resumed[c]) then resumed[c].value else cursors[c]
  }

  /** `if (cursor)`: neither `null` nor the empty string. */
  predicate Usable(cursor: Option<Text>) {
    cursor.Some? && cursor.value != []
  }

  /** `#handleFrame`. A data frame without a document, or whose document has no id, makes `put`
      throw, and then nothing happens. */
  function Handle(r: Replica, frame: Frame, subscribed: set<Text>): Replica {
    match frame
    case Data(_, Some(doc), collections, cursor) =>
      if doc.id == [] then r
      else Replica(r.docs[doc.id := Copy(doc, collections)],
                   if Usable(cursor) then MarkAll(r.cursors, collections, subscribed, cursor.value) else r.cursors)
    case Resumed(cursors) => r.(cursors := Adopt(r.cursors, cursors))
    case _ => r
  }

  function HandleAll(r: Replica, frames: seq<Frame>, subscribed: set<Text>): Replica
    decreases |frames|
  {
    if frames == [] then r else HandleAll(Handle(r, frames[0], subscribed), frames[1..], subscribed)
  }

  lemma {:induction false} HandleAllConcat(r: Replica, xs: seq<Frame>, ys: seq<Frame>, subscribed: set<Text>)
    ensures HandleAll(r, xs + ys, subscribed) == HandleAll(HandleAll(r, xs, subscribed), ys, subscribed)
    decreases |xs|
  {
    if xs == [] {
      assert xs + ys == ys;
    } else {
      assert (xs + ys)[1..] == xs[1..] + ys;
      HandleAllConcat(Handle(r, xs[0], subscribed), xs[1..], ys, subscribed);
    }
  }
}
