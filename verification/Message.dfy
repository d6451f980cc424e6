/** Framing of messages (message.c): the frame that a message box puts out, and the box
    that reading a frame in any pieces builds. */
module Message {
  import opened Base
  import opened StructWalk
  import opened StructRecord
  import opened StructCodec

  type bytes = seq<byte>
  type int32 = x: int | -0x8000_0000 <= x < 0x8000_0000

  const HEAD_SIZE: nat := 180
  const EXPAND_HEAD_SIZE: nat := 12
  const MAX_EXPAND_NUM: nat := 10
  const BUFFER: nat := 4096
  const VERSION: int32 := 0x0001_0001
  const MESG: bytes := [0x4d, 0x45, 0x53, 0x47]

  // ------------------------------------------------------------------------
  // Integers and heads as the machine lays them out

  /** An int in four bytes, least significant first. */
  function IntBytes(v: int32): (b: bytes)
    ensures |b| == 4
  {
    var u: int := if v < 0 then v + 0x1_0000_0000 else v;
    [u % 256, u / 0x100 % 256, u / 0x1_0000 % 256, u / 0x100_0000]
  }

  function IntAt(d: bytes, at: nat): int32
    requires at + 4 <= |d|
  {
    var b0: int, b1: int, b2: int, b3: int := d[at], d[at + 1], d[at + 2], d[at + 3];
    var u := b0 + 0x100 * b1 + 0x1_0000 * b2 + 0x100_0000 * b3;
    if u < 0x8000_0000 then u else u - 0x1_0000_0000
  }

  lemma FourDigits(u: int)
    requires 0 <= u < 0x1_0000_0000
    ensures u % 256 + 0x100 * (u / 0x100 % 256) + 0x1_0000 * (u / 0x1_0000 % 256) + 0x100_0000 * (u / 0x100_0000) == u
  {
    var q := u / 0x100;
    assert u / 0x1_0000 == q / 0x100 && u / 0x100_0000 == q / 0x100 / 0x100;
  }

  lemma IntValueBack(v: int32)
    ensures IntAt(IntBytes(v), 0) == v
  {
    FourDigits(if v < 0 then v + 0x1_0000_0000 else v);
  }

  /** The first byte has the lowest weight, and the sign is in the top bit of the last. */
  lemma IntExact(v: int32)
    ensures
      var b0: int, b1: int, b2: int, b3: int := IntBytes(v)[0], IntBytes(v)[1], IntBytes(v)[2], IntBytes(v)[3];
      v == b0 + 0x100 * b1 + 0x1_0000 * b2 + 0x100_0000 * b3 - (if b3 >= 0x80 then 0x1_0000_0000 else 0)
  {
    FourDigits(if v < 0 then v + 0x1_0000_0000 else v);
  }

  lemma IntBack(v: int32, pre: bytes, rest: bytes)
    ensures IntAt(pre + IntBytes(v) + rest, |pre|) == v
  {
    hide IntBytes;
    var d, b := pre + IntBytes(v) + rest, IntBytes(v);
    IntValueBack(v);
    assert d[|pre|] == b[0] && d[|pre| + 1] == b[1] && d[|pre| + 2] == b[2] && d[|pre| + 3] == b[3];
  }

  datatype Field = Number(v: int32) | Text(t: bytes)

  function FieldBytes(f: Field): bytes {
    match f
    case Number(v) => IntBytes(v)
    case Text(t) => t
  }

  function FieldsBytes(fs: seq<Field>): bytes {
    if fs == [] then [] else FieldBytes(fs[0]) + FieldsBytes(fs[1..])
  }

  /** Width of a text field, or zero for a number. */
  function Width(f: Field): nat {
    match f
    case Number(_) => 0
    case Text(t) => |t|
  }

  /** `fs` has the layout `widths`. */
  predicate Laid(fs: seq<Field>, widths: seq<nat>) {
    |fs| == |widths| && forall i :: 0 <= i < |fs| ==> Fits(fs[i], widths[i])
  }

  function FieldSize(width: nat): nat { if width == 0 then 4 else width }

  function FieldAt(width: nat, d: bytes): Field
    requires |d| >= FieldSize(width)
  {
    if width == 0 then Number(IntAt(d, 0)) else Text(d[..width])
  }

  function ReadFields(widths: seq<nat>, d: bytes): Option<seq<Field>> {
    if widths == [] then Some([])
    else if |d| < FieldSize(widths[0]) then None
    else
      match ReadFields(widths[1..], d[FieldSize(widths[0])..])
      case None => None
      case Some(fs) => Some([FieldAt(widths[0], d)] + fs)
  }

  predicate Fits(f: Field, width: nat) { Width(f) == width && (f.Text? ==> width > 0) }

  lemma FieldBack(f: Field, width: nat, tail: bytes)
    requires Fits(f, width)
    ensures FieldSize(width) == |FieldBytes(f)| && FieldAt(width, FieldBytes(f) + tail) == f
  {
    hide IntBytes, IntAt;
    match f
    case Number(v) =>
      IntBack(v, [], tail);
      assert [] + IntBytes(v) + tail == IntBytes(v) + tail;
    case Text(t) =>
      assert (t + tail)[..|t|] == t;
  }

  lemma {:induction false} FieldsBack(widths: seq<nat>, fs: seq<Field>, rest: bytes)
    requires Laid(fs, widths)
    ensures ReadFields(widths, FieldsBytes(fs) + rest) == Some(fs)
  {
    hide FieldBytes, FieldAt, FieldSize, Fits;
    if fs != [] {
      var b := FieldBytes(fs[0]);
      var tail := FieldsBytes(fs[1..]) + rest;
      FieldBack(fs[0], widths[0], tail);
      assert FieldsBytes(fs) + rest == b + tail;
      assert (b + tail)[|b|..] == tail;
      FieldsBack(widths[1..], fs[1..], rest);
      assert [fs[0]] + fs[1..] == fs;
    }
  }

  datatype Head = Head(
    tag: bytes, version: int32, sender: bytes, receiver: bytes, route: bytes,
    flow: int32, state: int32, flag: int32, ljump: int32, rjump: int32, record_type: int32, record_subtype: int32,
    record_num: int32, record_size: int32, expand_num: int32, expand_size: int32, nonce: bytes)

  const LAYOUT: seq<nat> := [4, 0, 32, 32, 32, 0, 0, 0, 0, 0, 0, 0, 0, 0, 0, 0, 32]

  function HeadFields(h: Head): (fs: seq<Field>)
    ensures |fs| == 17
  {
    [Text(h.tag), Number(h.version), Text(h.sender), Text(h.receiver), Text(h.route),
     Number(h.flow), Number(h.state), Number(h.flag), Number(h.ljump), Number(h.rjump), Number(h.record_type), Number(h.record_subtype),
     Number(h.record_num), Number(h.record_size), Number(h.expand_num), Number(h.expand_size), Text(h.nonce)]
  }

  function NumberOf(f: Field): int32 { if f.Number? then f.v else 0 }

  function TextOf(f: Field): bytes { if f.Text? then f.t else [] }

  function HeadOf(fs: seq<Field>): Head
    requires |fs| == 17
  {
    Head(TextOf(fs[0]), NumberOf(fs[1]), TextOf(fs[2]), TextOf(fs[3]), TextOf(fs[4]),
      NumberOf(fs[5]), NumberOf(fs[6]), NumberOf(fs[7]), NumberOf(fs[8]), NumberOf(fs[9]), NumberOf(fs[10]), NumberOf(fs[11]),
      NumberOf(fs[12]), NumberOf(fs[13]), NumberOf(fs[14]), NumberOf(fs[15]), TextOf(fs[16]))
  }

  predicate Sized(h: Head) { |h.tag| == 4 && |h.sender| == 32 && |h.receiver| == 32 && |h.route| == 32 && |h.nonce| == 32 }

  function HeadBytes(h: Head): bytes { FieldsBytes(HeadFields(h)) }

  /** `blob_2_struct` with the template of the head. */
  function ReadHeadFields(d: bytes): Option<Head> {
    match ReadFields(LAYOUT, d)
    case None => None
    case Some(fs) => if |fs| == 17 then Some(HeadOf(fs)) else None
  }

  lemma HeadOfFields(h: Head)
    ensures HeadOf(HeadFields(h)) == h
  {
  }

  lemma HeadBack(h: Head, rest: bytes)
    requires Sized(h)
    ensures ReadHeadFields(HeadBytes(h) + rest) == Some(h)
  {
    HeadLaid(h);
    HeadOfFields(h);
    hide HeadFields, HeadOf;
    FieldsBack(LAYOUT, HeadFields(h), rest);
  }

  /** Bytes of the layout from field `i` on. */
  function LayoutSize(i: nat): nat
    requires i <= 17
    decreases 17 - i
  {
    if i == 17 then 0 else FieldSize(LAYOUT[i]) + LayoutSize(i + 1)
  }

  lemma {:induction false} FieldsLength(fs: seq<Field>, i: nat)
    requires Laid(fs, LAYOUT) && i <= 17
    ensures |FieldsBytes(fs[i..])| == LayoutSize(i)
    decreases 17 - i
  {
    hide IntBytes;
    if i < 17 {
      FieldsLength(fs, i + 1);
      assert fs[i..][1..] == fs[i + 1..];
    }
  }

  lemma LayoutTotal()
    ensures LayoutSize(0) == HEAD_SIZE
  {
    assert LayoutSize(15) == 36;
    assert LayoutSize(13) == 44;
    assert LayoutSize(11) == 52;
    assert LayoutSize(9) == 60;
    assert LayoutSize(7) == 68;
    assert LayoutSize(5) == 76;
    assert LayoutSize(3) == 140;
    assert LayoutSize(1) == 176;
  }

  lemma HeadLaid(h: Head)
    requires Sized(h)
    ensures Laid(HeadFields(h), LAYOUT)
  {
  }

  lemma HeadLength(h: Head)
    requires Sized(h)
    ensures |HeadBytes(h)| == HEAD_SIZE
  {
    hide HeadFields;
    HeadLaid(h);
    FieldsLength(HeadFields(h), 0);
    assert HeadFields(h)[0..] == HeadFields(h);
    LayoutTotal();
  }

  lemma {:induction false} FieldsSplit(fs: seq<Field>, i: nat)
    requires i <= |fs|
    ensures FieldsBytes(fs) == FieldsBytes(fs[..i]) + FieldsBytes(fs[i..])
    decreases i
  {
    hide FieldBytes;
    if i == 0 {
      assert fs[0..] == fs && [] + FieldsBytes(fs) == FieldsBytes(fs);
    } else {
      FieldsSplit(fs[1..], i - 1);
      assert fs[1..][..i - 1] == fs[..i][1..] && fs[1..][i - 1..] == fs[i..];
      var f, x, y := FieldBytes(fs[0]), FieldsBytes(fs[..i][1..]), FieldsBytes(fs[i..]);
      assert f + (x + y) == (f + x) + y;
    }
  }

  lemma Middle(pre: bytes, f: bytes, tail: bytes)
    ensures (pre + (f + tail))[|pre|..|pre| + |f|] == f
  {
  }

  lemma FieldCut(fs: seq<Field>, i: nat)
    requires i < |fs|
    ensures var b, f, n := FieldsBytes(fs), FieldBytes(fs[i]), |FieldsBytes(fs[i..])|;
      |f| <= n <= |b| && b[|b| - n..|b| - n + |f|] == f
  {
    assert fs[i..] != [] && fs[i..][0] == fs[i];
    hide FieldBytes;
    FieldsSplit(fs, i);
    Middle(FieldsBytes(fs[..i]), FieldBytes(fs[i]), FieldsBytes(fs[i..][1..]));
  }

  /** Field `i` stands behind the fields before it. */
  lemma FieldPlace(fs: seq<Field>, i: nat)
    requires Laid(fs, LAYOUT) && i < 17 && |fs| == 17
    ensures var b, f := FieldsBytes(fs), FieldBytes(fs[i]);
      |b| == 180 && |f| <= LayoutSize(i) <= 180 &&
      b[180 - LayoutSize(i)..180 - LayoutSize(i) + |f|] == f
  {
    hide LayoutSize, FieldBytes, FieldsBytes, Laid;
    LayoutTotal();
    FieldsLength(fs, 0);
    FieldsLength(fs, i);
    assert fs[0..] == fs;
    FieldCut(fs, i);
  }

  lemma LayoutPlaces()
    ensures LayoutSize(0) == 180 && LayoutSize(1) == 176 && LayoutSize(2) == 172 && LayoutSize(3) == 140
    ensures LayoutSize(4) == 108 && LayoutSize(5) == 76 && LayoutSize(6) == 72 && LayoutSize(7) == 68
    ensures LayoutSize(8) == 64 && LayoutSize(9) == 60 && LayoutSize(10) == 56 && LayoutSize(11) == 52
    ensures LayoutSize(12) == 48 && LayoutSize(13) == 44 && LayoutSize(14) == 40 && LayoutSize(15) == 36
    ensures LayoutSize(16) == 32
  {
    LayoutTotal();
    assert LayoutSize(16) == 32 && LayoutSize(14) == 40 && LayoutSize(12) == 48 && LayoutSize(10) == 56;
  }

  /** Which bytes of the packed head hold which field. */
  lemma HeadAt(h: Head)
    requires Sized(h)
    ensures
      var b := HeadBytes(h);
      && |b| == 180
      && b[0..4] == h.tag
      && b[4..8] == IntBytes(h.version)
      && b[8..40] == h.sender
      && b[40..72] == h.receiver
      && b[72..104] == h.route
      && b[104..108] == IntBytes(h.flow)
      && b[108..112] == IntBytes(h.state)
      && b[112..116] == IntBytes(h.flag)
      && b[116..120] == IntBytes(h.ljump)
  {
    hide LayoutSize, FieldsBytes, Laid, IntBytes;
    HeadLaid(h);
    FieldPlace(HeadFields(h), 0);
    FieldPlace(HeadFields(h), 1);
    FieldPlace(HeadFields(h), 2);
    FieldPlace(HeadFields(h), 3);
    FieldPlace(HeadFields(h), 4);
    FieldPlace(HeadFields(h), 5);
    FieldPlace(HeadFields(h), 6);
    FieldPlace(HeadFields(h), 7);
    FieldPlace(HeadFields(h), 8);
    LayoutPlaces();
  }

  lemma HeadBehind(h: Head)
    requires Sized(h)
    ensures
      var b := HeadBytes(h);
      && |b| == 180
      && b[120..124] == IntBytes(h.rjump)
      && b[124..128] == IntBytes(h.record_type)
      && b[128..132] == IntBytes(h.record_subtype)
      && b[132..136] == IntBytes(h.record_num)
      && b[136..140] == IntBytes(h.record_size)
      && b[140..144] == IntBytes(h.expand_num)
      && b[144..148] == IntBytes(h.expand_size)
      && b[148..180] == h.nonce
  {
    hide LayoutSize, FieldsBytes, Laid, IntBytes;
    HeadLaid(h);
    FieldPlace(HeadFields(h), 9);
    FieldPlace(HeadFields(h), 10);
    FieldPlace(HeadFields(h), 11);
    FieldPlace(HeadFields(h), 12);
    FieldPlace(HeadFields(h), 13);
    FieldPlace(HeadFields(h), 14);
    FieldPlace(HeadFields(h), 15);
    FieldPlace(HeadFields(h), 16);
    LayoutPlaces();
  }

  // ------------------------------------------------------------------------
  // Frames

  /** A packed expand: its first word counts the bytes behind the expand head. */
  predicate IsExpand(e: bytes) { |e| >= EXPAND_HEAD_SIZE && IntAt(e, 0) + EXPAND_HEAD_SIZE == |e| }

  datatype Frame = Frame(head: Head, records: bytes, expands: seq<bytes>)

  predicate HeadOk(h: Head) {
    h.record_num >= 0 && 0 <= h.expand_num <= MAX_EXPAND_NUM && h.tag == MESG && h.version == VERSION
  }

  predicate WellFormed(f: Frame) {
    && Sized(f.head) && HeadOk(f.head)
    && f.head.record_size == |f.records| && f.head.expand_size == |Concat(f.expands)|
    && f.head.expand_num == |f.expands| && (forall i :: 0 <= i < |f.expands| ==> IsExpand(f.expands[i]))
  }

  function Body(f: Frame): bytes { f.records + Concat(f.expands) }

  function FrameBytes(f: Frame): bytes { HeadBytes(f.head) + Body(f) }

  /** The first `n` expands from `at` on, found as the loop of `message_read_data` finds them;
      `None` if it would leave the data. */
  function Split(d: bytes, at: nat, n: nat): Option<(seq<bytes>, nat)> {
    if n == 0 then Some(([], at))
    else
      match Split(d, at, n - 1)
      case None => None
      case Some((es, end)) =>
        if end + 4 > |d| || IntAt(d, end) + EXPAND_HEAD_SIZE < 0 || end + IntAt(d, end) + EXPAND_HEAD_SIZE > |d| then None
        else Some((es + [d[end..end + IntAt(d, end) + EXPAND_HEAD_SIZE]], end + IntAt(d, end) + EXPAND_HEAD_SIZE))
  }

  lemma IntInside(pre: bytes, e: bytes, rest: bytes)
    requires |e| >= 4
    ensures IntAt(pre + e + rest, |pre|) == IntAt(e, 0)
  {
    var d := pre + e + rest;
    assert d[|pre|] == e[0] && d[|pre| + 1] == e[1] && d[|pre| + 2] == e[2] && d[|pre| + 3] == e[3];
  }

  lemma SplitNext(d: bytes, at: nat, n: nat, es: seq<bytes>, pre: bytes, e: bytes, rest: bytes)
    requires Split(d, at, n) == Some((es, |pre|)) && d == pre + e + rest && IsExpand(e)
    ensures Split(d, at, n + 1) == Some((es + [e], |pre| + |e|))
  {
    hide IntAt;
    IntInside(pre, e, rest);
    assert d[|pre|..|pre| + |e|] == e;
  }

  /** Splitting finds the expands that were joined. */
  lemma {:induction false} SplitConcat(pre: bytes, es: seq<bytes>, rest: bytes)
    requires forall i :: 0 <= i < |es| ==> IsExpand(es[i])
    ensures Split(pre + Concat(es) + rest, |pre|, |es|) == Some((es, |pre| + |Concat(es)|))
  {
    hide IntAt, IsExpand, Split;
    if es == [] {
      SplitStart(pre + Concat(es) + rest, |pre|);
    } else {
      var most, e := es[..|es| - 1], es[|es| - 1];
      var front := pre + Concat(most);
      Regroup(pre, Concat(most), e, rest);
      SplitConcat(pre, most, e + rest);
      assert IsExpand(e);
      SplitNext(front + e + rest, |pre|, |most|, most, front, e, rest);
      assert most + [e] == es;
    }
  }

  lemma Regroup(a: bytes, b: bytes, c: bytes, d: bytes)
    ensures a + (b + c) + d == a + b + c + d == (a + b) + (c + d)
  {
  }

  lemma SplitFrame(f: Frame)
    requires WellFormed(f)
    ensures Split(Body(f), f.head.record_size, f.head.expand_num) == Some((f.expands, |Body(f)|))
  {
    SplitConcat(f.records, f.expands, []);
    assert f.records + Concat(f.expands) + [] == Body(f);
  }

  // ------------------------------------------------------------------------
  // Message boxes

  datatype BoxState = Init | Adding | LoadData | Rebuilding

  datatype RecordSlot = RecordSlot(blob: Option<bytes>, rec: Option<Record>, size: int)

  /** An expand as a structure: its head fields and the record behind them. */
  datatype ExpandRec = ExpandRec(data_size: int32, kind: int32, subtype: int32, body: Record)

  datatype ExpandSlot = ExpandSlot(blob: Option<bytes>, rec: Option<ExpandRec>, size: int)

  type MemDb = (int32, int32) -> Option<Node>

  predicate Crypted(h: Head) { h.flag / 16 % 2 == 1 }

  /** The blob of a record; it can be packed if and only if its template can pack it. */
  function PackBytes(root: Node, m: Record): (r: Result<bytes>)
    ensures r.Ok? <==> Pack(root, m).Ok?
    ensures r.Ok? ==> r.value == Pack(root, m).value.blob
  {
    match Pack(root, m)
    case Ok(p) => Ok(p.blob)
    case Err(c) => Err(c)
  }

  /** The bytes of a record: those it was given, or the packed structure. */
  function RecordBytes(root: Node, s: RecordSlot): Result<bytes> {
    match s.blob
    case Some(b) => Ok(b)
    case None =>
      match s.rec
      case None => Err(EINVAL)
      case Some(m) => PackBytes(root, m)
  }

  /** The first bytes of a packed expand are overwritten with the size of its body. */
  function ExpandBytes(db: MemDb, s: ExpandSlot): Result<bytes> {
    match s.rec
    case None =>
      (match s.blob
       case None => Err(EINVAL)
       case Some(b) => Ok(b))
    case Some(e) =>
      match db(e.kind, e.subtype)
      case None => Err(EINVAL)
      case Some(root) =>
        match PackBytes(root, e.body)
        case Err(c) => Err(c)
        case Ok(b) =>
          if |b| >= 0x8000_0000 then Err(EINVAL)
          else Ok(IntBytes(|b|) + IntBytes(e.kind) + IntBytes(e.subtype) + b)
  }

  function JoinRecords(root: Node, slots: seq<RecordSlot>): Result<bytes> {
    if slots == [] then Ok([])
    else
      match JoinRecords(root, slots[..|slots| - 1])
      case Err(c) => Err(c)
      case Ok(front) =>
        match RecordBytes(root, slots[|slots| - 1])
        case Err(c) => Err(c)
        case Ok(b) => Ok(front + b)
  }

  function AllExpands(db: MemDb, slots: seq<ExpandSlot>): Result<seq<bytes>> {
    if slots == [] then Ok([])
    else
      match AllExpands(db, slots[..|slots| - 1])
      case Err(c) => Err(c)
      case Ok(front) =>
        match ExpandBytes(db, slots[|slots| - 1])
        case Err(c) => Err(c)
        case Ok(b) => Ok(front + [b])
  }

  lemma PackedIsExpand(v: int32, kind: int32, subtype: int32, b: bytes)
    requires v == |b|
    ensures IsExpand(IntBytes(v) + IntBytes(kind) + IntBytes(subtype) + b)
  {
    hide IntBytes, IntAt;
    var e := IntBytes(v) + IntBytes(kind) + IntBytes(subtype) + b;
    assert e == [] + IntBytes(v) + (IntBytes(kind) + IntBytes(subtype) + b);
    IntBack(v, [], IntBytes(kind) + IntBytes(subtype) + b);
  }

  /** Slots of a box that has just been read: packed bytes only. */
  function Slots(es: seq<bytes>): (r: seq<ExpandSlot>)
    ensures |r| == |es|
  {
    if es == [] then [] else Slots(es[..|es| - 1]) + [ExpandSlot(Some(es[|es| - 1]), None, |es[|es| - 1]|)]
  }

  function EmptySlots(n: nat): (r: seq<RecordSlot>)
    ensures |r| == n && forall i :: 0 <= i < n ==> r[i] == RecordSlot(None, None, 0)
  {
    if n == 0 then [] else EmptySlots(n - 1) + [RecordSlot(None, None, 0)]
  }

  /** Why a box puts out nothing. */
  predicate Barred(h: Head, template: Option<Node>, blob: Option<bytes>) {
    (blob.None? && (Crypted(h) || template.None?)) || h.record_num < 0 || h.expand_num < 0
  }

  /** The record part of the output. `blob` is the body that the box was read with, if any. */
  function OutRecords(h: Head, template: Option<Node>, records: seq<RecordSlot>, blob: Option<bytes>): Result<bytes> {
    if Barred(h, template, blob) then Err(EINVAL)
    else if blob.None? then JoinRecords(template.value, records)
    else if 0 <= h.record_size <= |blob.value| then Ok(blob.value[..h.record_size])
    else Err(EINVAL)
  }

  /** The frame that a box puts out. */
  function OutFrame(db: MemDb, h: Head, recs: Result<bytes>, expands: seq<ExpandSlot>): Result<Frame> {
    match recs
    case Err(c) => Err(c)
    case Ok(b) =>
      match AllExpands(db, expands)
      case Err(c) => Err(c)
      case Ok(es) => if Oversize(b, es) then Err(EINVAL) else Ok(Frame(h.(record_size := |b|, expand_size := |Concat(es)|), b, es))
  }

  /** More than the buffer of the program holds. */
  predicate Oversize(recs: bytes, es: seq<bytes>) { HEAD_SIZE + |recs| + |Concat(es)| > BUFFER }

  predicate Accepts(d: bytes) {
    && |d| >= HEAD_SIZE && ReadHeadFields(d).Some? && HeadOk(ReadHeadFields(d).value)
    && BodySize(ReadHeadFields(d).value) >= 0
  }

  /** A head is accepted for its tag, its version and its counts. */
  lemma AcceptsExact(h: Head, rest: bytes)
    requires Sized(h)
    ensures
      Accepts(HeadBytes(h) + rest) <==>
      h.tag == [0x4d, 0x45, 0x53, 0x47] && h.version == 0x0001_0001 && h.record_num >= 0 &&
      0 <= h.expand_num <= 10 && BodySize(h) >= 0
  {
    hide HeadBytes, ReadHeadFields;
    HeadBack(h, rest);
    HeadLength(h);
  }

  lemma AcceptsLong(d: bytes)
    requires Accepts(d)
    ensures |d| >= 180
  {
  }

  /** The flag of an encrypted message is bit 4. */
  lemma CryptedBit(h: Head, above: int, bit: int, below: int)
    requires h.flag as int == 32 * above + 16 * bit + below && 0 <= bit < 2 && 0 <= below < 16
    ensures Crypted(h) <==> bit == 1
  {
    var f: int := h.flag;
    assert f / 16 == 2 * above + bit;
  }

  function BodySize(h: Head): int { var a: int, b: int := h.record_size, h.expand_size; a + b }

  method CopyInto(dst: array<byte>, at: nat, src: bytes, n: nat)
    requires n <= |src| && at + n <= dst.Length
    modifies dst
    ensures dst[..at + n] == old(dst[..at]) + src[..n]
    ensures dst[at + n..] == old(dst[at + n..])
  {
    for i := 0 to n
      invariant dst[..at] == old(dst[..at]) && dst[at + n..] == old(dst[at + n..])
      invariant forall k :: 0 <= k < i ==> dst[at..][k] == src[k]
    {
      dst[at + i] := src[i];
    }
    assert dst[at..at + n] == src[..n];
    assert dst[..at + n] == dst[..at] + dst[at..at + n];
  }

  class MessageBox {
    const db: MemDb
    var head: Head
    var state: BoxState
    var template: Option<Node>
    var records: seq<RecordSlot>
    var expands: seq<ExpandSlot>
    var blob: array?<byte>
    var offset: nat

    constructor (db: MemDb, head: Head)
      ensures this.db == db && this.head == head && state == Init && template == None && blob == null
      ensures records == [] && expands == [] && offset == 0
    {
      this.db := db;
      this.head := head;
      state := Init;
      template, records, expands, blob, offset := None, [], [], null, 0;
    }

    /** The head has been read, and of the body the bytes `got`. */
    ghost predicate Loading(h: Head, got: bytes)
      reads this, blob
    {
      && state == LoadData && head == h && blob != null && blob.Length == BodySize(h)
      && offset == |got| <= blob.Length && blob[..offset] == got
    }

    /** The whole body has been read and cut up. */
    ghost predicate Rebuilt(h: Head, body: bytes, es: seq<bytes>)
      reads this, blob
    {
      && state == Rebuilding && head == h && blob != null && blob[..] == body && offset == 0
      && expands == Slots(es) && h.record_num >= 0 && records == EmptySlots(h.record_num)
    }

    /** `message_read_data`. The sizes within the body must be those of its parts: the
        program does not look. */
    method ReadData(d: bytes, ghost got: bytes) returns (r: int)
      requires state == LoadData ==> Loading(head, got) && head.record_num >= 0 && head.expand_num >= 0
      requires state == LoadData && d != [] && |got| + |d| >= BodySize(head) ==>
        head.record_size >= 0 && Split((got + d)[..BodySize(head)], head.record_size, head.expand_num).Some?
      modifies this, blob
      ensures blob == old(blob) && template == old(template)
      ensures old(state) != LoadData || d == [] ==>
        r == EINVAL && state == old(state) && head == old(head) && records == old(records) && expands == old(expands) &&
        offset == old(offset) && (blob != null ==> blob[..] == old(if blob != null then blob[..] else []))
      ensures old(state) == LoadData && d != [] && |got| + |d| < BodySize(old(head)) ==>
        r == 0 && Loading(old(head), got + d)
      ensures old(state) == LoadData && d != [] && |got| + |d| >= BodySize(old(head)) ==>
        var body := (got + d)[..BodySize(old(head))];
        r == |body| - |got| && Rebuilt(old(head), body, Split(body, old(head.record_size), old(head.expand_num)).value.0)
    {
      hide IntAt, Slots, EmptySlots, Split;
      if state != LoadData || |d| == 0 { return EINVAL; }
      var total := BodySize(head);
      if |d| + offset >= total {
        var size := total - offset;
        CopyInto(blob, offset, d, size);
        assert blob[..] == (got + d)[..total] by {
          assert blob[..offset + size] == blob[..];
        }
        offset := 0;
        records := EmptySlots(head.record_num);
        CutExpands();
        state := Rebuilding;
        return size;
      }
      CopyInto(blob, offset, d, |d|);
      assert d[..|d|] == d;
      offset := offset + |d|;
      r := 0;
    }

    ghost function BlobBytes(): Option<bytes>
      reads this, blob
    {
      if blob == null then None else Some(blob[..])
    }

    /** `message_record_struct2blob`: every record is packed, and the sizes add up. */
    method RecordStruct2Blob() returns (r: Result<nat>)
      requires template.Some? && head.record_num == |records|
      requires forall i :: 0 <= i < |records| && records[i].blob.Some? ==> records[i].size == |records[i].blob.value|
      requires JoinRecords(template.value, records).Ok? ==> |JoinRecords(template.value, records).value| < 0x8000_0000
      modifies this`records, this`head
      ensures match JoinRecords(template.value, old(records))
        case Err(c) => r == Err(c) && head == old(head)
        case Ok(b) => r == Ok(|b|) && head == old(head).(record_size := |b|) && |records| == |old(records)| && Flat(records) && Blobs(records) == b
    {
      hide Pack, RecordBytes, JoinRecords, Blobs;
      ghost var was := records;
      JoinStart(template.value, was);
      var size := 0;
      ghost var done: bytes := [];
      ghost var root := template.value;
      for i := 0 to head.record_num
        invariant head == old(head) && template == old(template) && |records| == |was|
        invariant JoinRecords(root, was[..i]) == Ok(done) && size == |done|
        invariant Flat(records[..i]) && Blobs(records[..i]) == done
        invariant forall k :: i <= k < |was| ==> records[k] == was[k]
      {
        JoinMore(root, was, i);
        var s := records[i];
        var packed := GetRecordBytes(s);
        if packed.Err? {
          JoinFails(root, was, i + 1);
          return Err(packed.code);
        }
        var s' := RecordSlot(Some(packed.value), s.rec, |packed.value|);
        records := records[i := s'];
        BlobsMore(records, i);
        done := done + packed.value;
        size := size + s'.size;
      }
      assert was[..|was|] == was && records[..|was|] == records;
      head := head.(record_size := size);
      r := Ok(size);
    }

    method GetRecordBytes(s: RecordSlot) returns (r: Result<bytes>)
      requires template.Some?
      ensures r == RecordBytes(template.value, s)
    {
      if s.blob.None? {
        if s.rec.None? { return Err(EINVAL); }
        return PackBytes(template.value, s.rec.value);
      }
      r := Ok(s.blob.value);
    }

    /** `message_expand_struct2blob`. */
    method ExpandStruct2Blob() returns (r: Result<nat>)
      requires head.expand_num == |expands| && Ready(expands)
      requires AllExpands(db, expands).Ok? ==> |Concat(AllExpands(db, expands).value)| < 0x8000_0000
      modifies this`expands, this`head
      ensures match AllExpands(db, old(expands))
        case Err(c) => r == Err(c)
        case Ok(es) => r == Ok(|Concat(es)|) && head == old(head).(expand_size := |Concat(es)|) && |expands| == |old(expands)| && HoldExpands(expands, es)
    {
      hide ExpandBytes, AllExpands, Concat;
      ghost var was := expands;
      var size := 0;
      ghost var done: seq<bytes> := [];
      ExpandsStart(db, was);
      for i := 0 to head.expand_num
        invariant head == old(head) && |expands| == |was| && |done| == i
        invariant AllExpands(db, was[..i]) == Ok(done) && size == |Concat(done)|
        invariant forall k :: 0 <= k < i ==> expands[k].blob == Some(done[k]) && expands[k].size == |done[k]|
        invariant forall k :: i <= k < |was| ==> expands[k] == was[k]
      {
        ExpandsMore(db, was, i);
        var s := expands[i];
        var packed := GetExpandBytes(s);
        if packed.Err? {
          ExpandsFail(db, was, i + 1);
          return Err(packed.code);
        }
        expands := expands[i := ExpandSlot(Some(packed.value), s.rec, |packed.value|)];
        ConcatLast(done, packed.value);
        done := done + [packed.value];
        size := size + |packed.value|;
      }
      assert was[..|was|] == was;
      head := head.(expand_size := size);
      r := Ok(size);
    }

    /** An expand kept as bytes has the size that its first word says; a structure is packed
        behind its head fields, and then the size field is set. */
    method GetExpandBytes(s: ExpandSlot) returns (r: Result<bytes>)
      requires s.rec.None? && s.blob.Some? ==> IsExpand(s.blob.value)
      ensures r == ExpandBytes(db, s)
    {
      hide IntBytes, IntAt, Pack;
      if s.rec.None? {
        if s.blob.None? { return Err(EINVAL); }
        var size := IntAt(s.blob.value, 0) + EXPAND_HEAD_SIZE;
        assert s.blob.value[..size] == s.blob.value;
        return Ok(s.blob.value[..size]);
      }
      var e := s.rec.value;
      var root := db(e.kind, e.subtype);
      if root.None? { return Err(EINVAL); }
      var body := PackBytes(root.value, e.body);
      if body.Err? { return Err(body.code); }
      var b := body.value;
      if |b| >= 0x8000_0000 { return Err(EINVAL); }
      var buffer := IntBytes(e.data_size) + IntBytes(e.kind) + IntBytes(e.subtype) + b;
      SizeSet(IntBytes(e.data_size), IntBytes(|b|), IntBytes(e.kind) + IntBytes(e.subtype) + b);
      assert buffer == IntBytes(e.data_size) + (IntBytes(e.kind) + IntBytes(e.subtype) + b);
      assert IntBytes(|b|) + IntBytes(e.kind) + IntBytes(e.subtype) + b == IntBytes(|b|) + (IntBytes(e.kind) + IntBytes(e.subtype) + b);
      r := Ok(IntBytes(|b|) + buffer[4..]);
    }

    /** `message_output_blob`, for a message that fits the buffer. */
    method Output() returns (r: Result<bytes>)
      requires Sized(head)
      requires head.record_num >= 0 ==> head.record_num == |records|
      requires head.expand_num >= 0 ==> head.expand_num == |expands|
      requires Ready(expands) && Measured(records)
      requires blob != null ==> 0 <= head.record_size <= blob.Length
      requires InBuffer(db, OutRecords(head, template, records, BlobBytes()), expands)
      modifies this
      ensures match OutFrame(db, old(head), old(OutRecords(head, template, records, BlobBytes())), old(expands))
        case Err(c) => r == Err(c)
        case Ok(f) => r == Ok(FrameBytes(f)) && head == f.head
    {
      hide JoinRecords, AllExpands, HeadBytes;
      ghost var recs := OutRecords(head, template, records, BlobBytes());
      if blob == null && (Crypted(head) || template.None?) { return Err(EINVAL); }
      if head.record_num < 0 || head.expand_num < 0 { return Err(EINVAL); }
      var buffer := new byte[BUFFER];
      if blob != null {
        ghost var pre := buffer[..HEAD_SIZE];
        CopyInto(buffer, HEAD_SIZE, blob[..], head.record_size);
        PartBehind(buffer[..], pre, recs.value);
      } else {
        var n := RecordStruct2Blob();
        if n.Err? { return Err(n.code); }
        ghost var pre := buffer[..HEAD_SIZE];
        var _ := CopyRecords(buffer, HEAD_SIZE);
        PartBehind(buffer[..], pre, recs.value);
      }
      r := FinishOutput(buffer, recs.value);
    }

    /** The expands behind the records in the buffer, and the head in front of them. */
    method FinishOutput(buffer: array<byte>, ghost recs: bytes) returns (r: Result<bytes>)
      requires Sized(head) && head.expand_num == |expands| && Ready(expands) && buffer.Length == BUFFER
      requires InBuffer(db, Ok(recs), expands) && head.record_size == |recs| && HEAD_SIZE + |recs| <= BUFFER
      requires buffer[HEAD_SIZE..HEAD_SIZE + |recs|] == recs
      modifies this`expands, this`head, buffer
      ensures match OutFrame(db, old(head), Ok(recs), old(expands))
        case Err(c) => r == Err(c)
        case Ok(f) => r == Ok(FrameBytes(f)) && head == f.head
    {
      hide AllExpands, HeadBytes, Sized;
      ghost var h0, es0, pre := head, expands, buffer[..HEAD_SIZE];
      var at := HEAD_SIZE + head.record_size;
      assert buffer[..at] == pre + buffer[HEAD_SIZE..at];
      var n := ExpandStruct2Blob();
      if n.Err? { return Err(n.code); }
      ghost var es := AllExpands(db, es0).value;
      at := CopyExpands(buffer, at, es);
      HeadLength2(h0, head);
      ghost var was := buffer[..];
      CopyInto(buffer, 0, HeadBytes(head), HEAD_SIZE);
      var size := HEAD_SIZE + head.record_size + head.expand_size;
      FrameInBuffer(was, buffer[..], HeadBytes(head), pre, recs, Concat(es));
      r := Ok(buffer[..size]);
    }

    method CopyRecords(buffer: array<byte>, at: nat) returns (to: nat)
      requires Flat(records) && head.record_num == |records| && at + |Blobs(records)| <= buffer.Length
      modifies buffer
      ensures to == at + |Blobs(records)| && buffer[..to] == old(buffer[..at]) + Blobs(records)
    {
      hide Blobs;
      to := at;
      ghost var rs := records;
      BlobsStart(rs);
      for i := 0 to head.record_num
        invariant to == at + |Blobs(rs[..i])| <= buffer.Length
        invariant buffer[..to] == old(buffer[..at]) + Blobs(rs[..i])
      {
        BlobsMore(rs, i);
        BlobsFit(rs, i + 1);
        var b := records[i].blob.value;
        CopyInto(buffer, to, b, |b|);
        assert b[..|b|] == b;
        to := to + |b|;
      }
      assert rs[..|rs|] == rs;
    }

    method CopyExpands(buffer: array<byte>, at: nat, ghost es: seq<bytes>) returns (to: nat)
      requires HoldExpands(expands, es) && head.expand_num == |expands| && at + |Concat(es)| <= buffer.Length
      modifies buffer
      ensures to == at + |Concat(es)| && buffer[..to] == old(buffer[..at]) + Concat(es)
    {
      hide Concat;
      to := at;
      ConcatStart(es);
      for i := 0 to head.expand_num
        invariant to == at + |Concat(es[..i])| <= buffer.Length
        invariant buffer[..to] == old(buffer[..at]) + Concat(es[..i])
      {
        ConcatMore(es, i, Concat(es));
        var b := expands[i].blob.value;
        CopyInto(buffer, to, b, expands[i].size);
        assert b[..|b|] == b;
        to := to + expands[i].size;
      }
      assert es[..|es|] == es;
    }

    /** The loop of `message_load_record` on a box that has just been read. */
    method LoadRecords() returns (r: Result<nat>)
      requires blob != null && head.record_num >= 0 && records == EmptySlots(head.record_num) && offset == 0
      modifies this`records, this`template, this`offset
      ensures var root := if old(template).Some? then old(template) else db(head.record_type, head.record_subtype);
        match UnpackWith(root, blob[..], head.record_num)
        case Err(c) => r == Err(c)
        case Ok((ms, at)) => r == Ok(at) && offset == at && Loaded(records, ms)
    {
      hide Unpack, UnpackRecords, EmptySlots;
      if template.None? {
        template := db(head.record_type, head.record_subtype);
        if template.None? { return Err(EINVAL); }
      }
      ghost var root, d := template.value, blob[..];
      ghost var ms: seq<Record> := [];
      UnpackStart(root, d);
      for i := 0 to head.record_num
        invariant template == Some(root) && blob[..] == d && |records| == head.record_num
        invariant UnpackRecords(root, d, i) == Ok((ms, offset)) && |ms| == i
        invariant forall k :: 0 <= k < i ==> records[k].rec == Some(ms[k])
      {
        UnpackMore(root, d, i);
        if offset > blob.Length {
          UnpackFails(root, d, i + 1, head.record_num);
          return Err(EINVAL);
        }
        var u := Unpack(template.value, blob[offset..]);
        if u.Err? {
          UnpackFails(root, d, i + 1, head.record_num);
          return Err(u.code);
        }
        records := records[i := RecordSlot(Some(blob[offset..]), Some(u.value.rec), u.value.off)];
        ms := ms + [u.value.rec];
        offset := offset + u.value.off;
      }
      r := Ok(offset);
    }

    /** The loop over the expands of a body that is complete. */
    method CutExpands()
      requires blob != null && head.record_size >= 0 && head.expand_num >= 0
      requires Split(blob[..], head.record_size, head.expand_num).Some?
      modifies this`expands
      ensures expands == Slots(Split(blob[..], head.record_size, head.expand_num).value.0)
    {
      hide IntAt, Split, Slots;
      ghost var d := blob[..];
      SplitStart(d, head.record_size);
      var at := head.record_size as int;
      expands := [];
      ghost var es: seq<bytes> := [];
      for i := 0 to head.expand_num
        invariant at >= 0 && Split(d, head.record_size, i) == Some((es, at))
        invariant expands == Slots(es) && blob[..] == d
      {
        SplitShorter(d, head.record_size, i + 1, head.expand_num);
        SplitRoom(d, head.record_size, i, es, at);
        var n := ReadInt(blob, at);
        var size := n + EXPAND_HEAD_SIZE;
        var e := blob[at..at + size];
        SplitStep(d, head.record_size, i, es, at);
        SlotsMore(es, e);
        expands := expands + [ExpandSlot(Some(e), None, size)];
        es := es + [e];
        at := at + size;
      }
    }
  }

  method ReadInt(b: array<byte>, at: nat) returns (v: int)
    requires at + 4 <= b.Length
    ensures v == IntAt(b[..], at)
  {
    var b0: int, b1: int, b2: int, b3: int := b[at], b[at + 1], b[at + 2], b[at + 3];
    var u := b0 + 0x100 * b1 + 0x1_0000 * b2 + 0x100_0000 * b3;
    v := if u < 0x8000_0000 then u else u - 0x1_0000_0000;
  }

  lemma {:induction false} SplitShorter(d: bytes, at: nat, n: nat, m: nat)
    requires n <= m && Split(d, at, m).Some?
    ensures Split(d, at, n).Some?
  {
    hide IntAt;
    if n < m {
      SplitShorter(d, at, n, m - 1);
    }
  }

  /** Every slot holds a packed record and its size. */
  predicate Flat(slots: seq<RecordSlot>) {
    forall i :: 0 <= i < |slots| ==> slots[i].blob.Some? && slots[i].size == |slots[i].blob.value|
  }

  function BlobOf(b: Option<bytes>): bytes { if b.Some? then b.value else [] }

  function Blobs(slots: seq<RecordSlot>): bytes {
    if slots == [] then [] else Blobs(slots[..|slots| - 1]) + BlobOf(slots[|slots| - 1].blob)
  }

  lemma BlobsMore(slots: seq<RecordSlot>, i: nat)
    requires i < |slots|
    ensures Blobs(slots[..i + 1]) == Blobs(slots[..i]) + BlobOf(slots[i].blob)
  {
    assert slots[..i + 1][..i] == slots[..i];
  }

  lemma JoinStart(root: Node, slots: seq<RecordSlot>)
    ensures JoinRecords(root, slots[..0]) == Ok([]) && Blobs(slots[..0]) == []
  {
  }

  lemma JoinMore(root: Node, slots: seq<RecordSlot>, i: nat)
    requires i < |slots|
    ensures JoinRecords(root, slots[..i + 1]) ==
            match JoinRecords(root, slots[..i])
            case Err(c) => Err(c)
            case Ok(b) => (match RecordBytes(root, slots[i])
                           case Err(c) => Err(c)
                           case Ok(e) => Ok(b + e))
  {
    hide RecordBytes;
    assert slots[..i + 1][..i] == slots[..i];
  }

  lemma {:induction false} JoinFails(root: Node, slots: seq<RecordSlot>, i: nat)
    requires i <= |slots| && JoinRecords(root, slots[..i]).Err?
    ensures JoinRecords(root, slots) == JoinRecords(root, slots[..i])
    decreases |slots| - i
  {
    hide RecordBytes;
    if i < |slots| {
      JoinMore(root, slots, i);
      JoinFails(root, slots, i + 1);
    } else {
      assert slots[..i] == slots;
    }
  }

  /** Sizes of records given as bytes are noted. */
  predicate Measured(slots: seq<RecordSlot>) {
    forall i :: 0 <= i < |slots| && slots[i].blob.Some? ==> slots[i].size == |slots[i].blob.value|
  }

  predicate Ready(slots: seq<ExpandSlot>) {
    forall i :: 0 <= i < |slots| && slots[i].rec.None? && slots[i].blob.Some? ==> IsExpand(slots[i].blob.value)
  }

  predicate HoldExpands(slots: seq<ExpandSlot>, es: seq<bytes>) {
    |slots| == |es| && forall i :: 0 <= i < |es| ==> slots[i].blob == Some(es[i]) && slots[i].size == |es[i]|
  }

  /** The parts of the output fit the buffer. */
  predicate InBuffer(db: MemDb, recs: Result<bytes>, expands: seq<ExpandSlot>) {
    recs.Ok? ==>
      && !Oversize(recs.value, [])
      && (AllExpands(db, expands).Ok? ==> !Oversize(recs.value, AllExpands(db, expands).value))
  }

  lemma SizeSet(a: bytes, b: bytes, rest: bytes)
    requires |a| == 4
    ensures b + (a + rest)[4..] == b + rest
  {
    assert (a + rest)[4..] == rest;
  }

  lemma ConcatLast(es: seq<bytes>, e: bytes)
    ensures Concat(es + [e]) == Concat(es) + e
  {
    assert (es + [e])[..|es|] == es;
  }

  lemma BlobsStart(slots: seq<RecordSlot>)
    ensures Blobs(slots[..0]) == []
  {
  }

  lemma {:induction false} BlobsFit(slots: seq<RecordSlot>, i: nat)
    requires i <= |slots|
    ensures |Blobs(slots[..i])| <= |Blobs(slots)|
    decreases |slots| - i
  {
    if i < |slots| {
      BlobsMore(slots, i);
      BlobsFit(slots, i + 1);
    } else {
      assert slots[..i] == slots;
    }
  }

  lemma HeadLength2(h0: Head, h: Head)
    requires Sized(h0) && h == h0.(record_size := h.record_size, expand_size := h.expand_size)
    ensures |HeadBytes(h)| == HEAD_SIZE
  {
    HeadLength(h);
  }

  lemma PartBehind(b: bytes, pre: bytes, part: bytes)
    requires |pre| + |part| <= |b| && b[..|pre| + |part|] == pre + part
    ensures b[|pre|..|pre| + |part|] == part
  {
    assert b[..|pre| + |part|][|pre|..] == part;
  }

  lemma FrameInBuffer(was: bytes, buffer: bytes, head: bytes, pre: bytes, recs: bytes, es: bytes)
    requires |head| == |pre| == HEAD_SIZE && HEAD_SIZE + |recs| + |es| <= |buffer| == |was|
    requires was[..HEAD_SIZE + |recs| + |es|] == pre + recs + es
    requires buffer[..0 + HEAD_SIZE] == was[..0] + head[..HEAD_SIZE] && buffer[0 + HEAD_SIZE..] == was[0 + HEAD_SIZE..]
    ensures buffer[..HEAD_SIZE + |recs| + |es|] == head + (recs + es)
  {
    var n := HEAD_SIZE + |recs| + |es|;
    assert buffer[..n] == buffer[..HEAD_SIZE] + buffer[HEAD_SIZE..][..n - HEAD_SIZE];
    assert was[HEAD_SIZE..][..n - HEAD_SIZE] == was[..n][HEAD_SIZE..];
    assert (pre + recs + es)[HEAD_SIZE..] == recs + es;
  }

  lemma ExpandsStart(db: MemDb, slots: seq<ExpandSlot>)
    ensures AllExpands(db, slots[..0]) == Ok([]) && Concat<byte>([]) == []
  {
  }

  lemma ExpandsMore(db: MemDb, slots: seq<ExpandSlot>, i: nat)
    requires i < |slots|
    ensures AllExpands(db, slots[..i + 1]) ==
            match AllExpands(db, slots[..i])
            case Err(c) => Err(c)
            case Ok(es) => (match ExpandBytes(db, slots[i])
                            case Err(c) => Err(c)
                            case Ok(e) => Ok(es + [e]))
  {
    hide ExpandBytes;
    assert slots[..i + 1][..i] == slots[..i];
  }

  lemma {:induction false} ExpandsFail(db: MemDb, slots: seq<ExpandSlot>, i: nat)
    requires i <= |slots| && AllExpands(db, slots[..i]).Err?
    ensures AllExpands(db, slots) == AllExpands(db, slots[..i])
    decreases |slots| - i
  {
    hide ExpandBytes;
    if i < |slots| {
      ExpandsMore(db, slots, i);
      ExpandsFail(db, slots, i + 1);
    } else {
      assert slots[..i] == slots;
    }
  }

  lemma SplitStart(d: bytes, at: nat)
    ensures Split(d, at, 0) == Some(([], at)) && Slots([]) == []
  {
  }

  lemma SplitRoom(d: bytes, at: nat, i: nat, es: seq<bytes>, end: nat)
    requires Split(d, at, i + 1).Some? && Split(d, at, i) == Some((es, end))
    ensures end + 4 <= |d| && 0 <= IntAt(d, end) + EXPAND_HEAD_SIZE && end + IntAt(d, end) + EXPAND_HEAD_SIZE <= |d|
  {
    hide IntAt;
  }

  lemma SplitStep(d: bytes, at: nat, i: nat, es: seq<bytes>, end: nat)
    requires Split(d, at, i + 1).Some? && Split(d, at, i) == Some((es, end))
    requires end + 4 <= |d| && 0 <= IntAt(d, end) + EXPAND_HEAD_SIZE && end + IntAt(d, end) + EXPAND_HEAD_SIZE <= |d|
    ensures var size := IntAt(d, end) + EXPAND_HEAD_SIZE;
      Split(d, at, i + 1) == Some((es + [d[end..end + size]], end + size))
  {
    hide IntAt;
  }

  lemma SlotsMore(es: seq<bytes>, e: bytes)
    ensures Slots(es + [e]) == Slots(es) + [ExpandSlot(Some(e), None, |e|)]
  {
    assert (es + [e])[..|es|] == es;
  }

  /** `message_read_head`. */
  method ReadHead(db: MemDb, d: bytes) returns (r: int, box: MessageBox?)
    ensures Accepts(d) <==> box != null
    ensures box == null ==> r == EINVAL || r == ENOMEM
    ensures box != null ==> r == HEAD_SIZE && fresh(box) && fresh(box.blob) && box.db == db && box.template == None
    ensures box != null ==> box.Loading(ReadHeadFields(d).value, [])
  {
    hide ReadHeadFields;
    if |d| < HEAD_SIZE { return EINVAL, null; }
    var h := ReadHeadFields(d);
    if h.None? { return EINVAL, null; }
    var head := h.value;
    if head.record_num < 0 { return EINVAL, null; }
    if head.expand_num < 0 { return EINVAL, null; }
    if head.expand_num > MAX_EXPAND_NUM { return EINVAL, null; }
    if head.tag != MESG { return EINVAL, null; }
    if head.version != VERSION { return EINVAL, null; }
    var total := BodySize(head);
    if total < 0 { return ENOMEM, null; }
    box := new MessageBox(db, head);
    box.state := LoadData;
    box.blob := new byte[total];
    r := HEAD_SIZE;
  }

  // ------------------------------------------------------------------------
  // Reading

  lemma FrameAccepted(f: Frame, rest: bytes)
    requires WellFormed(f)
    ensures var d := FrameBytes(f) + rest;
      && Accepts(d) && ReadHeadFields(d) == Some(f.head) && d[HEAD_SIZE..] == Body(f) + rest
      && BodySize(f.head) == |Body(f)|
  {
    hide ReadHeadFields, HeadBytes;
    var d := FrameBytes(f) + rest;
    assert d == HeadBytes(f.head) + (Body(f) + rest);
    HeadBack(f.head, Body(f) + rest);
    HeadLength(f.head);
  }

  /** `message_read_from_blob` on a frame with anything behind it. A frame without a body
      is read only if something follows it. */
  method ReadFromBlob(db: MemDb, ghost f: Frame, ghost rest: bytes, d: bytes) returns (r: int, box: MessageBox?)
    requires WellFormed(f) && d == FrameBytes(f) + rest
    ensures Body(f) + rest == [] <==> r < 0
    ensures Body(f) + rest != [] ==> r == |FrameBytes(f)| && box != null && box.Rebuilt(f.head, Body(f), f.expands)
    ensures box != null ==> fresh(box) && box.db == db && fresh(box.blob) && box.template == None
  {
    hide WellFormed, Accepts, ReadHeadFields, Body, HeadBytes;
    FrameAccepted(f, rest);
    FrameSize(f);
    BodyPrefix(f, rest);
    SplitBody(f);
    r, box := ReadHead(db, d);
    assert box.head == f.head;
    var n := r;
    r := box.ReadData(d[n..], []);
    if r >= 0 { r := r + n; }
  }

  lemma FrameSize(f: Frame)
    requires WellFormed(f)
    ensures |FrameBytes(f)| == HEAD_SIZE + |Body(f)|
  {
    HeadLength(f.head);
  }

  lemma BodyPrefix(f: Frame, rest: bytes)
    ensures ([] + (Body(f) + rest))[..|Body(f)|] == Body(f)
  {
  }

  lemma SplitBody(f: Frame)
    requires WellFormed(f)
    ensures f.head.record_size >= 0 && f.head.expand_num >= 0 && f.head.record_num >= 0
    ensures Split(Body(f), f.head.record_size, f.head.expand_num) == Some((f.expands, |Body(f)|))
  {
    SplitFrame(f);
  }

  /** The body in pieces: a box that has read the head stays loading until the piece that
      completes the body, and is then the box that one read gives, whatever comes after. */
  method ReadInPieces(box: MessageBox, ghost f: Frame, ghost rest: bytes, pieces: seq<bytes>)
    requires WellFormed(f) && box.Loading(f.head, []) && Concat(pieces) <= Body(f) + rest
    requires forall i :: 0 <= i < |pieces| ==> pieces[i] != []
    modifies box, box.blob
    ensures pieces == [] || |Concat(pieces)| < |Body(f)| ==> box.Loading(f.head, Concat(pieces))
    ensures pieces != [] && |Concat(pieces)| >= |Body(f)| ==> box.Rebuilt(f.head, Body(f), f.expands)
  {
    hide WellFormed, Body, Concat, Slots, EmptySlots, Split;
    SplitBody(f);
    FrameAccepted(f, rest);
    ghost var blob := box.blob;
    ghost var got: bytes := [];
    ConcatStart(pieces);
    for i := 0 to |pieces|
      invariant got == Concat(pieces[..i]) <= Body(f) + rest && box.blob == blob
      invariant if i == 0 || |got| < |Body(f)| then box.Loading(f.head, got) else box.Rebuilt(f.head, Body(f), f.expands)
    {
      ConcatMore(pieces, i, Body(f) + rest);
      Cover(got + pieces[i], Body(f), rest);
      var _ := box.ReadData(pieces[i], got);
      got := got + pieces[i];
    }
    assert pieces[..|pieces|] == pieces;
  }

  lemma ConcatStart(pieces: seq<bytes>)
    ensures Concat(pieces[..0]) == []
  {
  }

  lemma {:induction false} ConcatMore(pieces: seq<bytes>, i: nat, all: bytes)
    requires i < |pieces| && Concat(pieces) <= all
    ensures Concat(pieces[..i + 1]) == Concat(pieces[..i]) + pieces[i] <= all
    decreases |pieces| - i
  {
    assert pieces[..i + 1][..i] == pieces[..i];
    if i + 1 == |pieces| {
      assert pieces[..i + 1] == pieces;
    } else {
      var most := pieces[..|pieces| - 1];
      assert Concat(pieces) == Concat(most) + pieces[|pieces| - 1];
      assert Concat(most) <= Concat(pieces);
      ConcatMore(most, i, all);
      assert most[..i + 1] == pieces[..i + 1] && most[..i] == pieces[..i];
    }
  }

  lemma Cover(a: bytes, b: bytes, rest: bytes)
    requires a <= b + rest
    ensures |a| >= |b| ==> a[..|b|] == b
  {
  }

  // ------------------------------------------------------------------------
  // Output and reading together

  lemma {:induction false} ExpandsWhole(db: MemDb, slots: seq<ExpandSlot>)
    requires Ready(slots) && AllExpands(db, slots).Ok?
    ensures var es := AllExpands(db, slots).value;
      |es| == |slots| && forall i :: 0 <= i < |es| ==> IsExpand(es[i])
  {
    hide IsExpand, ExpandBytes;
    if slots != [] {
      var most := slots[..|slots| - 1];
      ExpandsWhole(db, most);
      ExpandWhole(db, slots[|slots| - 1]);
    }
  }

  lemma ExpandWhole(db: MemDb, s: ExpandSlot)
    requires s.rec.None? && s.blob.Some? ==> IsExpand(s.blob.value)
    requires ExpandBytes(db, s).Ok?
    ensures IsExpand(ExpandBytes(db, s).value)
  {
    hide IntBytes, IntAt, Pack;
    if s.rec.Some? {
      var e := s.rec.value;
      var b := PackBytes(db(e.kind, e.subtype).value, e.body).value;
      PackedIsExpand(|b|, e.kind, e.subtype, b);
    }
  }

  /** What a box with a proper head puts out is a well-formed frame. */
  lemma OutWellFormed(db: MemDb, h: Head, recs: Result<bytes>, expands: seq<ExpandSlot>)
    requires Sized(h) && HeadOk(h) && h.expand_num == |expands| && Ready(expands)
    requires OutFrame(db, h, recs, expands).Ok?
    ensures WellFormed(OutFrame(db, h, recs, expands).value)
  {
    hide AllExpands, Concat, IsExpand;
    ExpandsWhole(db, expands);
  }

  /** Reading what a box puts out gives its head, the bytes of its records and each expand. */
  method Exchange(box: MessageBox) returns (sent: Result<bytes>, got: MessageBox?)
    requires Sized(box.head) && HeadOk(box.head) && box.blob == null
    requires box.head.record_num == |box.records| && box.head.expand_num == |box.expands|
    requires Ready(box.expands) && Measured(box.records)
    requires InBuffer(box.db, OutRecords(box.head, box.template, box.records, None), box.expands)
    modifies box
    ensures match old(OutFrame(box.db, box.head, OutRecords(box.head, box.template, box.records, None), box.expands))
      case Err(c) => sent == Err(c)
      case Ok(f) =>
        && sent == Ok(FrameBytes(f)) && box.head == f.head && WellFormed(f)
        && (Body(f) != [] ==> got != null && fresh(got) && got.db == box.db && got.template == None && got.Rebuilt(f.head, Body(f), f.expands))
  {
    hide WellFormed, OutRecords, OutFrame, InBuffer, FrameBytes, Body, HeadOk, Sized, Ready, Measured;
    got := null;
    ghost var o := OutFrame(box.db, box.head, OutRecords(box.head, box.template, box.records, None), box.expands);
    if o.Ok? { OutWellFormed(box.db, box.head, OutRecords(box.head, box.template, box.records, None), box.expands); }
    sent := box.Output();
    if sent.Ok? {
      NothingBehind(o.value);
      var _, b := ReadFromBlob(box.db, o.value, [], sent.value);
      got := b;
    }
  }

  lemma NothingBehind(f: Frame)
    ensures FrameBytes(f) == FrameBytes(f) + [] && Body(f) + [] == Body(f)
  {
  }

  lemma {:induction false} SlotsExpands(db: MemDb, es: seq<bytes>)
    requires forall i :: 0 <= i < |es| ==> IsExpand(es[i])
    ensures AllExpands(db, Slots(es)) == Ok(es) && Ready(Slots(es))
  {
    hide IsExpand, Pack;
    if es != [] {
      var most, e := es[..|es| - 1], es[|es| - 1];
      SlotsExpands(db, most);
      assert Slots(es)[..|es| - 1] == Slots(most);
      assert most + [e] == es;
    }
  }

  /** A box that has just read a frame puts out that frame. */
  lemma RelayFrame(db: MemDb, f: Frame)
    requires WellFormed(f) && |FrameBytes(f)| <= BUFFER
    ensures var recs := OutRecords(f.head, None, EmptySlots(f.head.record_num), Some(Body(f)));
      && OutFrame(db, f.head, recs, Slots(f.expands)) == Ok(f)
      && Ready(Slots(f.expands)) && Measured(EmptySlots(f.head.record_num)) && InBuffer(db, recs, Slots(f.expands))
  {
    hide HeadBytes, AllExpands, IsExpand, Slots;
    FrameSize(f);
    SlotsExpands(db, f.expands);
    EmptyMeasured(f.head.record_num);
    assert Body(f)[..|f.records|] == f.records;
  }

  lemma {:induction false} EmptyMeasured(n: nat)
    ensures Measured(EmptySlots(n))
  {
    if n > 0 {
      EmptyMeasured(n - 1);
    }
  }

  /** A relay passes on, byte for byte, the frame that it has read. */
  method Relay(db: MemDb, ghost f: Frame, ghost rest: bytes, d: bytes) returns (r: Result<bytes>)
    requires WellFormed(f) && d == FrameBytes(f) + rest && Body(f) + rest != [] && |FrameBytes(f)| <= BUFFER
    ensures r == Ok(FrameBytes(f))
  {
    hide WellFormed, OutRecords, OutFrame, InBuffer, FrameBytes, Body, Slots, EmptySlots, Measured, Ready;
    RelayFrame(db, f);
    RelayReady(f);
    var _, box := ReadFromBlob(db, f, rest, d);
    assert box.BlobBytes() == Some(Body(f));
    r := box.Output();
  }

  lemma RelayReady(f: Frame)
    requires WellFormed(f)
    ensures Sized(f.head) && f.head.expand_num == |f.expands| && f.head.record_num >= 0
    ensures 0 <= f.head.record_size <= |Body(f)|
  {
  }

  // ------------------------------------------------------------------------
  // Records across a frame

  /** The first `n` records of `d`, one behind the other (`message_load_record`). */
  function UnpackRecords(root: Node, d: bytes, n: nat): Result<(seq<Record>, nat)> {
    if n == 0 then Ok(([], 0))
    else
      match UnpackRecords(root, d, n - 1)
      case Err(c) => Err(c)
      case Ok((ms, at)) =>
        if at > |d| then Err(EINVAL)
        else
          match Unpack(root, d[at..])
          case Err(c) => Err(c)
          case Ok(u) => Ok((ms + [u.rec], at + u.off))
  }

  function UnpackWith(root: Option<Node>, d: bytes, n: nat): Result<(seq<Record>, nat)> {
    if root.None? then Err(EINVAL) else UnpackRecords(root.value, d, n)
  }

  function RecordSlots(ms: seq<Record>): (r: seq<RecordSlot>)
    ensures |r| == |ms|
  {
    if ms == [] then [] else RecordSlots(ms[..|ms| - 1]) + [RecordSlot(None, Some(ms[|ms| - 1]), 0)]
  }

  /** Records packed and joined are found again, each as it was. */
  lemma {:induction false} RecordsBack(root: Node, ms: seq<Record>, rest: bytes)
    requires DefsSettled(root, root, Root) && forall i :: 0 <= i < |ms| ==> Whole(root, ms[i])
    requires JoinRecords(root, RecordSlots(ms)).Ok?
    ensures var b := JoinRecords(root, RecordSlots(ms)).value;
      UnpackRecords(root, b + rest, |ms|) == Ok((ms, |b|))
  {
    hide Pack, Unpack, DefsSettled;
    if ms != [] {
      var most, m := ms[..|ms| - 1], ms[|ms| - 1];
      assert RecordSlots(ms)[..|ms| - 1] == RecordSlots(most);
      var front, p := JoinRecords(root, RecordSlots(most)).value, Pack(root, m).value;
      RecordsBack(root, most, p.blob + rest);
      RoundTrip(root, m, rest);
      assert Whole(root, m);
      var d := front + p.blob + rest;
      assert front + (p.blob + rest) == d && d[|front|..] == p.blob + rest;
      assert most + [m] == ms;
    }
  }

  predicate Loaded(slots: seq<RecordSlot>, ms: seq<Record>) {
    |slots| == |ms| && forall i :: 0 <= i < |ms| ==> slots[i].rec == Some(ms[i])
  }

  lemma UnpackStart(root: Node, d: bytes)
    ensures UnpackRecords(root, d, 0) == Ok(([], 0))
  {
  }

  lemma UnpackMore(root: Node, d: bytes, i: nat)
    ensures UnpackRecords(root, d, i + 1) ==
            match UnpackRecords(root, d, i)
            case Err(c) => Err(c)
            case Ok((ms, at)) =>
              if at > |d| then Err(EINVAL)
              else (match Unpack(root, d[at..])
                    case Err(c) => Err(c)
                    case Ok(u) => Ok((ms + [u.rec], at + u.off)))
  {
    hide Unpack;
  }

  lemma {:induction false} UnpackFails(root: Node, d: bytes, i: nat, n: nat)
    requires i <= n && UnpackRecords(root, d, i).Err?
    ensures UnpackRecords(root, d, n) == UnpackRecords(root, d, i)
  {
    hide Unpack;
    if i < n {
      UnpackFails(root, d, i, n - 1);
    }
  }

  /** From end to end: records and expands packed into a message, framed, read from the
      frame and unpacked are the records and the expands. */
  method SendRecords(db: MemDb, head: Head, root: Node, ms: seq<Record>, es: seq<ExpandRec>) returns (got: MessageBox?)
    requires Sized(head) && HeadOk(head) && head.record_num == |ms| && head.expand_num == |es| && !Crypted(head)
    requires db(head.record_type, head.record_subtype) == Some(root)
    requires DefsSettled(root, root, Root) && forall i :: 0 <= i < |ms| ==> Whole(root, ms[i])
    requires forall i :: 0 <= i < |es| ==> Unpackable(db, es[i])
    requires JoinRecords(root, RecordSlots(ms)).Ok? && AllExpands(db, ExpandSlots(es)).Ok?
    requires var b, xs := JoinRecords(root, RecordSlots(ms)).value, AllExpands(db, ExpandSlots(es)).value;
      0 < |b| + |Concat(xs)| && !Oversize(b, xs)
    ensures got != null
    ensures var b, xs := JoinRecords(root, RecordSlots(ms)).value, AllExpands(db, ExpandSlots(es)).value;
      && got.head == head.(record_size := |b|, expand_size := |Concat(xs)|) && got.expands == Slots(xs)
      && |xs| == |es| && forall i :: 0 <= i < |es| ==> ExpandHolds(db, xs[i], es[i])
    ensures Loaded(got.records, ms)
  {
    hide Sized, DefsSettled, JoinRecords, RecordSlots, Whole, UnpackRecords, ExpandSlots, AllExpands, ExpandHolds, Unpackable, Concat;
    ghost var b, xs := JoinRecords(root, RecordSlots(ms)).value, AllExpands(db, ExpandSlots(es)).value;
    var box := new MessageBox(db, head);
    box.template := Some(root);
    box.records := RecordSlots(ms);
    box.expands := ExpandSlots(es);
    SlotsPlain(ms);
    ExpandsHold(db, es);
    OversizeAlone(b, xs);
    ghost var f := Frame(head.(record_size := |b|, expand_size := |Concat(xs)|), b, xs);
    assert OutRecords(head, box.template, box.records, None) == Ok(b);
    assert OutFrame(db, head, Ok(b), box.expands) == Ok(f);
    assert |Body(f)| > 0;
    var _, g := Exchange(box);
    got := g;
    RecordsBack(root, ms, Concat(xs));
    var _ := got.LoadRecords();
  }

  function ExpandSlots(es: seq<ExpandRec>): (r: seq<ExpandSlot>)
    ensures |r| == |es|
  {
    if es == [] then [] else ExpandSlots(es[..|es| - 1]) + [ExpandSlot(None, Some(es[|es| - 1]), 0)]
  }

  ghost predicate Unpackable(db: MemDb, e: ExpandRec) {
    match db(e.kind, e.subtype)
    case None => true
    case Some(root) => DefsSettled(root, root, Root) && Whole(root, e.body)
  }

  /** The packed expand tells its size, type and subtype, and its body unpacks to the record. */
  predicate ExpandHolds(db: MemDb, x: bytes, e: ExpandRec) {
    && |x| >= EXPAND_HEAD_SIZE && db(e.kind, e.subtype).Some?
    && IntAt(x, 0) == |x| - EXPAND_HEAD_SIZE && IntAt(x, 4) == e.kind && IntAt(x, 8) == e.subtype
    && var u := Unpack(db(e.kind, e.subtype).value, x[EXPAND_HEAD_SIZE..]);
       u.Ok? && u.value.rec == e.body && u.value.off == IntAt(x, 0)
  }

  lemma {:induction false} ExpandsHold(db: MemDb, es: seq<ExpandRec>)
    requires AllExpands(db, ExpandSlots(es)).Ok? && forall i :: 0 <= i < |es| ==> Unpackable(db, es[i])
    ensures var xs := AllExpands(db, ExpandSlots(es)).value;
      |xs| == |es| && forall i :: 0 <= i < |es| ==> ExpandHolds(db, xs[i], es[i])
    ensures Ready(ExpandSlots(es))
  {
    hide ExpandBytes, ExpandHolds, Unpackable, IsExpand;
    if es != [] {
      var most, e := es[..|es| - 1], es[|es| - 1];
      assert ExpandSlots(es)[..|es| - 1] == ExpandSlots(most);
      ExpandsHold(db, most);
      assert Unpackable(db, e);
      ExpandBack(db, ExpandSlot(None, Some(e), 0));
    }
  }

  lemma OversizeAlone(b: bytes, xs: seq<bytes>)
    requires !Oversize(b, xs)
    ensures !Oversize(b, [])
  {
  }

  lemma {:induction false} SlotsPlain(ms: seq<Record>)
    ensures Measured(RecordSlots(ms))
  {
    if ms != [] {
      SlotsPlain(ms[..|ms| - 1]);
    }
  }

  /** What is read from a packed expand is what was packed. */
  lemma ExpandBack(db: MemDb, s: ExpandSlot)
    requires s.rec.Some? && ExpandBytes(db, s).Ok? && Unpackable(db, s.rec.value)
    ensures ExpandHolds(db, ExpandBytes(db, s).value, s.rec.value)
  {
    hide Pack, Unpack, DefsSettled, IntBytes, IntAt;
    var e, x := s.rec.value, ExpandBytes(db, s).value;
    var root := db(e.kind, e.subtype).value;
    var b := Pack(root, e.body).value.blob;
    ThreeInts(|b|, e.kind, e.subtype, b);
    RoundTrip(root, e.body, []);
    assert b + [] == b;
  }

  lemma ThreeInts(n: int32, kind: int32, subtype: int32, b: bytes)
    ensures var x := IntBytes(n) + IntBytes(kind) + IntBytes(subtype) + b;
      IntAt(x, 0) == n && IntAt(x, 4) == kind && IntAt(x, 8) == subtype && x[EXPAND_HEAD_SIZE..] == b
  {
    hide IntBytes, IntAt;
    var i, j, k := IntBytes(n), IntBytes(kind), IntBytes(subtype);
    var x := i + j + k + b;
    IntBack(n, [], j + k + b);
    IntBack(kind, i, k + b);
    IntBack(subtype, i + j, b);
    assert [] + i + (j + k + b) == x && i + j + (k + b) == x;
  }

  /** A well-formed frame without records and expands: reading it alone is an error. */
  method EmptyBodyExample(db: MemDb, sender: bytes, receiver: bytes, route: bytes, nonce: bytes) returns (r: int)
    requires |sender| == |receiver| == |route| == |nonce| == 32
    ensures WellFormed(Frame(Head(MESG, VERSION, sender, receiver, route, 0, 0, 0, 0, 0, 0, 0, 0, 0, 0, 0, nonce), [], []))
    ensures r < 0
  {
    var head := Head(MESG, VERSION, sender, receiver, route, 0, 0, 0, 0, 0, 0, 0, 0, 0, 0, 0, nonce);
    ghost var f := Frame(head, [], []);
    assert Concat<byte>([]) == [];
    assert FrameBytes(f) + [] == HeadBytes(head);
    var box: MessageBox?;
    r, box := ReadFromBlob(db, f, [], HeadBytes(head));
  }
}
