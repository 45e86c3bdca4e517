/** FocalTech touchscreen: decoding of the 32-byte touch report read in the
    interrupt handler, and the input events it emits. The I2C transfer and
    the input core are abstract: the read result is an input and the
    emitted events are a list. */
module FocaltechTs {

  const BufLen: int := 32
  /** Bytes per touch record. */
  const RecordLen: int := 6
  const IrqHandled: int := 1
  /** Multi-touch slots the input device is set up with. */
  const MaxTouchPoints: int := 10
  /** Axis ranges advertised at probe time. */
  const AbsXMax: int := 1080
  const AbsYMax: int := 2400

  type Frame = s: seq<bv8> | |s| == BufLen witness seq(32, _ => 0 as bv8)

  /** Outcome of `i2c_master_recv` into the report buffer. */
  datatype ReadResult = ReadFailed(code: int) | Received(buf: Frame)

  datatype Point = Point(slot: nat, x: int, y: int)

  datatype Event =
    | PrepareFrame
    | MtSlot(slot: nat)
    | FingerActive
    | AbsX(x: int)
    | AbsY(y: int)
    | SyncFrame
    | Sync

  datatype HandlerResult = HandlerResult(events: seq<Event>, ret: int)

  /** Number of touch points announced by the report: the low nibble of byte 2. */
  function PointCount(buf: Frame): (n: nat)
    ensures n < 16
    ensures n == buf[2] as int % 16
  {
    (buf[2] & 0x0F) as int
  }

  /** A 12-bit coordinate: low nibble of `hi` above the 8 bits of `lo`. */
  function Coord(hi: bv8, lo: bv8): (v: int)
    ensures 0 <= v <= 4095
    ensures v == (hi as int % 16) * 256 + lo as int
  {
    (((hi & 0x0F) as bv16 << 8) | lo as bv16) as int
  }

  /** Byte offsets read for record i: X from 3+6i and 4+6i, Y from 5+6i and 6+6i. */
  function RecordReads(i: nat): seq<nat> {
    [3 + RecordLen * i, 4 + RecordLen * i, 5 + RecordLen * i, 6 + RecordLen * i]
  }

  // ---------------------------------------------------------------------
  // The loop as written

  /** Every byte offset the handler's loop reads for `count` announced
      points, in order. The loop trusts the count. */
  function ReadIndices(count: nat): (r: seq<nat>)
    ensures |r| == 4 * count
    ensures forall i :: 0 <= i < count ==> r[4 * i..4 * i + 4] == RecordReads(i)
  {
    if count == 0 then [] else ReadIndices(count - 1) + RecordReads(count - 1)
  }

  /** The reads stay inside the 32-byte buffer exactly when at most five
      points are announced; the count can announce fifteen. */
  lemma ReadsInBoundsIff(count: nat)
    ensures (forall j :: 0 <= j < |ReadIndices(count)| ==> ReadIndices(count)[j] < BufLen) <==> count <= MaxRecords
  {
    if count <= MaxRecords {
      ReadsInBounds(count);
    } else {
      SixthRecordOverreads(count);
    }
  }

  /** Up to five records, every read lies in the buffer. */
  lemma {:induction false} ReadsInBounds(count: nat)
    requires count <= MaxRecords
    ensures forall j :: 0 <= j < |ReadIndices(count)| ==> ReadIndices(count)[j] < BufLen
  {
    var r := ReadIndices(count);
    forall j | 0 <= j < |r|
      ensures r[j] < BufLen
    {
      var i := j / 4;
      assert 4 * i <= j < 4 * i + 4 && i < count;
      assert r[4 * i..4 * i + 4] == RecordReads(i);
      assert r[j] == RecordReads(i)[j - 4 * i] <= 6 + RecordLen * i;
    }
  }

  /** From six records on, the first read of record 5 is byte 33. */
  lemma {:induction false} SixthRecordOverreads(count: nat)
    requires count > MaxRecords
    ensures 20 < |ReadIndices(count)| && ReadIndices(count)[20] == 33
  {
    var r := ReadIndices(count);
    assert r[4 * 5..4 * 5 + 4] == RecordReads(5);
    assert r[20] == RecordReads(5)[0];
  }

  /** A report announcing six points makes the loop read byte 33 of the
      32-byte buffer. */
  lemma AsWrittenOverreads()
    ensures exists buf: Frame :: PointCount(buf) == 6 && 33 in ReadIndices(PointCount(buf)) && 33 >= BufLen
  {
    var buf: Frame := seq(32, j => if j == 2 then 6 as bv8 else 0 as bv8);
    assert buf[2] == 6;
    assert PointCount(buf) == 6;
    var r := ReadIndices(6);
    assert r[20..24] == RecordReads(5);
    assert r[20] == 33;
    assert 33 in r;
  }

  // ---------------------------------------------------------------------
  // The decoder, bounded by the buffer

  /** Records whose four coordinate bytes lie inside the buffer. */
  const MaxRecords: int := (BufLen - 1) / RecordLen

  function ReportedCount(buf: Frame): (n: nat)
    ensures n <= PointCount(buf) && n <= MaxRecords
    ensures n == PointCount(buf) || n == MaxRecords
  {
    if PointCount(buf) <= MaxRecords then PointCount(buf) else MaxRecords
  }

  function PointX(buf: Frame, i: nat): int
    requires i < MaxRecords
  {
    Coord(buf[3 + RecordLen * i], buf[4 + RecordLen * i])
  }

  function PointY(buf: Frame, i: nat): int
    requires i < MaxRecords
  {
    Coord(buf[5 + RecordLen * i], buf[6 + RecordLen * i])
  }

  /** The first `count` records of the report, record i in slot i. */
  function DecodeRecords(buf: Frame, count: nat): (r: seq<Point>)
    requires count <= MaxRecords
    ensures |r| == count
    ensures forall i :: 0 <= i < count ==>
      r[i] == Point(i, (buf[3 + 6 * i] as int % 16) * 256 + buf[4 + 6 * i] as int,
                       (buf[5 + 6 * i] as int % 16) * 256 + buf[6 + 6 * i] as int)
  {
    if count == 0 then []
    else DecodeRecords(buf, count - 1) + [Point(count - 1, PointX(buf, count - 1), PointY(buf, count - 1))]
  }

  /** The touch points of a report: every announced record that lies in
      the buffer, in order, each in the slot of its index, with 12-bit
      coordinates. Every slot used is one the device was set up with. */
  function Decode(buf: Frame): (r: seq<Point>)
    ensures |r| == ReportedCount(buf) <= MaxTouchPoints
    ensures forall i :: 0 <= i < |r| ==> r[i].slot == i && 0 <= r[i].x <= 4095 && 0 <= r[i].y <= 4095
  {
    DecodeRecords(buf, ReportedCount(buf))
  }

  /** Decoding reads only inside the buffer, and reads everything the
      report announces whenever that fits. */
  lemma DecodeReadsInBounds(buf: Frame)
    ensures forall j :: 0 <= j < |ReadIndices(ReportedCount(buf))| ==> ReadIndices(ReportedCount(buf))[j] < BufLen
    ensures PointCount(buf) <= MaxRecords ==> |Decode(buf)| == PointCount(buf)
  {
    ReadsInBoundsIff(ReportedCount(buf));
  }

  /** Coordinates are reported as read, not clamped to the advertised
      0..1080 and 0..2400 ranges: a report with all coordinate bits set
      puts (4095, 4095) into slot 0. */
  lemma CoordinatesNotClamped(buf: Frame)
    requires PointCount(buf) >= 1
    requires buf[3] == 0xFF && buf[4] == 0xFF && buf[5] == 0xFF && buf[6] == 0xFF
    ensures Decode(buf)[0] == Point(0, 4095, 4095)
    ensures Decode(buf)[0].x > AbsXMax && Decode(buf)[0].y > AbsYMax
  {
  }

  // ---------------------------------------------------------------------
  // Events

  /** The events reporting one point. */
  function PointEvents(pt: Point): seq<Event> {
    [MtSlot(pt.slot), FingerActive, AbsX(pt.x), AbsY(pt.y)]
  }

  function PointsEvents(points: seq<Point>): (r: seq<Event>)
    ensures |r| == 4 * |points|
    ensures forall i :: 0 <= i < |points| ==> r[4 * i..4 * i + 4] == PointEvents(points[i])
  {
    if |points| == 0 then []
    else PointsEvents(points[..|points| - 1]) + PointEvents(points[|points| - 1])
  }

  /** The threaded interrupt handler. A failed read emits nothing; otherwise
      the frame is prepared, each point is reported in its slot as an
      active finger, and the frame and the device are synced. The
      interrupt is always reported handled. */
  function IrqHandler(read: ReadResult): (r: HandlerResult)
    ensures r.ret == IrqHandled
    ensures read.ReadFailed? ==> r.events == []
    ensures read.Received? ==>
      var points := Decode(read.buf);
      && |r.events| == 3 + 4 * |points|
      && r.events[0] == PrepareFrame
      && r.events[|r.events| - 2..] == [SyncFrame, Sync]
      && forall i :: 0 <= i < |points| ==>
           r.events[1 + 4 * i..5 + 4 * i] == [MtSlot(i), FingerActive, AbsX(points[i].x), AbsY(points[i].y)]
  {
    match read
    case ReadFailed(_) => HandlerResult([], IrqHandled)
    case Received(buf) =>
      FramedEvents(Decode(buf));
      HandlerResult([PrepareFrame] + PointsEvents(Decode(buf)) + [SyncFrame, Sync], IrqHandled)
  }

  /** Where each point's events sit once the frame is wrapped in
      PrepareFrame and the two syncs. */
  lemma FramedEvents(points: seq<Point>)
    ensures var all := [PrepareFrame] + PointsEvents(points) + [SyncFrame, Sync];
      && all[|all| - 2..] == [SyncFrame, Sync]
      && forall i :: 0 <= i < |points| ==> all[1 + 4 * i..5 + 4 * i] == PointEvents(points[i])
  {
    var body := PointsEvents(points);
    var all := [PrepareFrame] + body + [SyncFrame, Sync];
    assert all[|all| - 2..] == [SyncFrame, Sync];
    assert all[1..|all| - 2] == body;
    forall i | 0 <= i < |points|
      ensures all[1 + 4 * i..5 + 4 * i] == PointEvents(points[i])
    {
      assert body[4 * i..4 * i + 4] == PointEvents(points[i]);
      assert all[1 + 4 * i..5 + 4 * i] == body[4 * i..4 * i + 4];
    }
  }
}
