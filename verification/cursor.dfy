/** The `(ts, id)` cursor: one string that sorts by time, then by id. */
module Cursor {
  import opened Texts
  import opened Radix

  const TS_WIDTH := 15
  const SEPARATOR: CodeUnit := 0
  const ZERO: CodeUnit := 48
  const DECIMAL: Text := Ascii("0123456789")

  datatype Entry = Entry(ts: int, id: Text)

  /** A timestamp the fixed-width field can hold. */
  predicate Encodable(ts: int) {
    0 <= ts < 1_000_000_000_000_000
  }

  /** `String(n)` for a natural number. */
  function Decimal(n: nat): Text {
    if n == 0 then [ZERO] else Spell(Digits(n, 10), DECIMAL)
  }

  function PadStart(t: Text, width: nat, fill: CodeUnit): Text {
    if |t| >= width then t else seq(width - |t|, _ => fill) + t
  }

  function PadTimestamp(ts: int): Option<Text> {
    if ts < 0 then None
    else
      var padded := PadStart(Decimal(ts), TS_WIDTH, ZERO);
      if |padded| > TS_WIDTH then None else Some(padded)
  }

  /** `None` stands for the thrown RangeError or TypeError. */
  function EncodeCursor(ts: int, id: Text): Option<Text> {
    if id == [] then None
    else
      var padded := PadTimestamp(ts);
      if padded.None? then None else Some(padded.value + [SEPARATOR] + id)
  }

  /** The timestamp field as plain fixed-width notation. */
  function Stamp(ts: int): (t: Text)
    requires Encodable(ts)
    ensures |t| == TS_WIDTH
  {
    Spell(Fixed(ts, TS_WIDTH, 10), DECIMAL)
  }

  function CursorOf(e: Entry): (t: Text)
    requires Encodable(e.ts)
  {
    Stamp(e.ts) + [SEPARATOR] + e.id
  }

  lemma TsLimit()
    ensures Pow(10, TS_WIDTH) == 1_000_000_000_000_000
  {
    assert Pow(10, 3) == 1000;
    PowAdd(10, 3, 3);
    PowAdd(10, 6, 6);
    PowAdd(10, 12, 3);
  }

  lemma PadStartIsFixed(n: nat, w: nat)
    requires w > 0 && n < Pow(10, w)
    ensures PadStart(Decimal(n), w, ZERO) == Spell(Fixed(n, w, 10), DECIMAL)
  {
    DigitsPadded(n, w, 10);
    FixedZero(w, 10);
    var ds := Digits(n, 10);
    if n == 0 {
      assert PadStart([ZERO], w, ZERO) == Spell(Zeros(w), DECIMAL);
    } else {
      assert PadStart(Decimal(n), w, ZERO) == Spell(Zeros(w - |ds|) + ds, DECIMAL);
    }
  }

  /** Padding to 15 digits is fixed-width notation, and overflows exactly from 10^15 on. */
  lemma PadTimestampIsStamp(ts: int)
    ensures PadTimestamp(ts) == if Encodable(ts) then Some(Stamp(ts)) else None
  {
    TsLimit();
    if Encodable(ts) {
      PadStartIsFixed(ts, TS_WIDTH);
    } else if ts >= 0 {
      DigitsTooMany(ts, TS_WIDTH, 10);
    }
  }

  /** `encodeCursor` succeeds exactly on a non-empty id and a timestamp in range. */
  lemma EncodeCursorIs(ts: int, id: Text)
    ensures EncodeCursor(ts, id)
         == if Encodable(ts) && id != [] then Some(CursorOf(Entry(ts, id))) else None
  {
    PadTimestampIsStamp(ts);
  }

  /** Earlier, or at the same time with a smaller id. */
  ghost predicate Before(e: Entry, f: Entry) {
    e.ts < f.ts || (e.ts == f.ts && Less(e.id, f.id))
  }

  lemma StampOrder(m: int, n: int)
    requires Encodable(m) && Encodable(n)
    ensures Less(Stamp(m), Stamp(n)) <==> m < n
    ensures Stamp(m) == Stamp(n) <==> m == n
  {
    TsLimit();
    FixedOrder(m, n, TS_WIDTH, 10);
    FixedInjective(m, n, TS_WIDTH, 10);
    var xs, ys := Fixed(m, TS_WIDTH, 10), Fixed(n, TS_WIDTH, 10);
    SpellOrder(xs, ys, DECIMAL);
    if Stamp(m) == Stamp(n) {
      SpellInjective(xs, ys, DECIMAL);
    }
  }

  /** Comparing cursors as strings is comparing `(ts, id)` pairs. */
  lemma CursorOrder(e: Entry, f: Entry)
    requires Encodable(e.ts) && Encodable(f.ts)
    ensures Less(CursorOf(e), CursorOf(f)) <==> Before(e, f)
  {
    StampOrder(e.ts, f.ts);
    LessSplit(Stamp(e.ts), [SEPARATOR] + e.id, Stamp(f.ts), [SEPARATOR] + f.id);
    LessAfterPrefix([SEPARATOR], e.id, f.id);
    assert CursorOf(e) == Stamp(e.ts) + ([SEPARATOR] + e.id);
    assert CursorOf(f) == Stamp(f.ts) + ([SEPARATOR] + f.id);
  }

  lemma CursorInjective(e: Entry, f: Entry)
    requires Encodable(e.ts) && Encodable(f.ts)
    requires CursorOf(e) == CursorOf(f)
    ensures e == f
  {
    assert CursorOf(e)[..TS_WIDTH] == Stamp(e.ts);
    assert CursorOf(f)[..TS_WIDTH] == Stamp(f.ts);
    StampOrder(e.ts, f.ts);
    assert CursorOf(e)[TS_WIDTH + 1..] == e.id;
    assert CursorOf(f)[TS_WIDTH + 1..] == f.id;
  }

  /** The same for `(ts, id)` listings: what `Ascending` is for strings. */
  ghost predicate InOrder(es: seq<Entry>) {
    forall i, j :: 0 <= i < j < |es| ==> Before(es[i], es[j])
  }
}
