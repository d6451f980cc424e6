/** Block-wise file transfer (file_dealer.c): what a receiver holds after any order and
    any repetition of the blocks of any number of files. */
module FileTransfer {
  import opened Base
  import opened Bitmap
  import Words

  type Uuid = seq<octet>
  type Bytes = seq<octet>
  type Digest = Bytes -> Uuid

  const BLOCK: nat := 512

  function Count(total: nat): (n: nat)
    ensures BLOCK * n < total + BLOCK && total <= BLOCK * n
  {
    (total + (BLOCK - 1)) / BLOCK
  }

  /** One message of the protocol. */
  datatype Data = Data(uuid: Uuid, name: string, offset: nat, total: nat, data: Bytes)

  /** What the receiver keeps of a file under way. */
  datatype Store = Store(size: nat, blocks: nat, got: set<nat>)

  datatype Disk = Disk(stores: map<Uuid, Store>, files: map<string, Bytes>)

  datatype Notice = Silent | Notice(uuid: Uuid, name: string, result: int)

  // ------------------------------------------------------------------------
  // Files

  lemma {:induction false} ZeroGap(n: int)
    ensures n > 0 ==> forall k :: 0 <= k < n ==> Words.Zeros(n)[k] == 0
  {
    if n > 0 { ZeroGap(n - 1); }
  }

  /** A write after a seek: a gap behind the end of the file reads as zero. */
  function WriteAt(f: Bytes, offset: nat, d: Bytes): (r: Bytes)
    ensures |r| == if offset + |d| > |f| then offset + |d| else |f|
    ensures forall k :: 0 <= k < |f| && !(offset <= k < offset + |d|) ==> r[k] == f[k]
    ensures forall k :: |f| <= k < offset ==> r[k] == 0
    ensures r[offset..offset + |d|] == d
  {
    ZeroGap(offset - |f|);
    var g := if offset > |f| then f + Words.Zeros(offset - |f|) else f;
    g[..offset] + d + (if offset + |d| < |g| then g[offset + |d|..] else [])
  }

  datatype Check = Same | Differs | Absent

  function SameFile(D: Digest, files: map<string, Bytes>, pf: Data): Check {
    if pf.name in files then (if D(files[pf.name]) == pf.uuid then Same else Differs) else Absent
  }

  function Verdict(D: Digest, files: map<string, Bytes>, pf: Data): Notice {
    Notice(pf.uuid, pf.name, if SameFile(D, files, pf) == Same then 1 else 0)
  }

  function Content(files: map<string, Bytes>, name: string): Bytes {
    if name in files then files[name] else []
  }

  function Stored(files: map<string, Bytes>, pf: Data): map<string, Bytes> {
    files[pf.name := WriteAt(Content(files, pf.name), pf.offset, pf.data)]
  }

  // ------------------------------------------------------------------------
  // One delivery

  function Opened(disk: Disk, pf: Data): Disk {
    if pf.uuid in disk.stores then disk
    else Disk(disk.stores[pf.uuid := Store(pf.total, Count(pf.total), {})], disk.files - {pf.name})
  }

  function Marked(disk: Disk, pf: Data): Disk {
    if pf.uuid !in disk.stores then disk
    else
      var st := disk.stores[pf.uuid];
      Disk(disk.stores[pf.uuid := Store(st.size, st.blocks, st.got + {pf.offset / BLOCK})], disk.files)
  }

  /** A file of one message, or one that is there already before its first block, leaves no store. */
  predicate Short(pf: Data) { pf.total == |pf.data| }

  predicate Refused(D: Digest, disk: Disk, pf: Data) {
    (Short(pf) || pf.uuid !in disk.stores) && SameFile(D, disk.files, pf) == Same
  }

  function Deliver(D: Digest, disk: Disk, pf: Data): Disk {
    if Refused(D, disk, pf) then disk
    else if Short(pf) then Disk(disk.stores, Stored(disk.files - {pf.name}, pf))
    else var d := Marked(Opened(disk, pf), pf); Disk(d.stores, Stored(d.files, pf))
  }

  predicate Complete(st: Store) { forall k :: 0 <= k < st.blocks ==> k in st.got }

  /** The notice that the delivery sends, from the disk it leaves. */
  function Reply(D: Digest, disk: Disk, pf: Data): Notice {
    var after := Deliver(D, disk, pf);
    if Short(pf) then (if Refused(D, disk, pf) then Notice(pf.uuid, pf.name, 0) else Verdict(D, after.files, pf))
    else if !Refused(D, disk, pf) && pf.uuid in after.stores && Complete(after.stores[pf.uuid]) then Verdict(D, after.files, pf)
    else Silent
  }

  // ------------------------------------------------------------------------
  // The sender

  datatype Source = Source(name: string, content: Bytes)

  function End(s: Source, k: nat): (e: nat) {
    if BLOCK * (k + 1) <= |s.content| then BLOCK * (k + 1) else |s.content|
  }

  function BlockOf(D: Digest, s: Source, k: nat): (pf: Data)
    requires k < Count(|s.content|)
    ensures pf.offset / BLOCK == k && pf.offset + |pf.data| == End(s, k)
  {
    Data(D(s.content), s.name, BLOCK * k, |s.content|, s.content[BLOCK * k..End(s, k)])
  }

  /** The loops of `proc_file_send` over one requested file. */
  method Send(D: Digest, s: Source) returns (sent: seq<Data>)
    ensures |sent| == Count(|s.content|)
    ensures forall k :: 0 <= k < |sent| ==> sent[k] == BlockOf(D, s, k)
    ensures forall k :: 0 <= k < |sent| ==>
      sent[k].offset == 512 * k && 0 < |sent[k].data| <= 512 && (k + 1 < |sent| ==> |sent[k].data| == 512)
  {
    var total := |s.content|;
    var digest := D(s.content);
    var pos := 0;
    sent := [];
    var i := 0;
    while i < total / BLOCK
      invariant i <= total / BLOCK && |sent| == i && pos == BLOCK * i
      invariant forall k :: 0 <= k < |sent| ==> sent[k] == BlockOf(D, s, k)
    {
      var block := s.content[pos..pos + BLOCK];
      pos := pos + BLOCK;
      sent := sent + [Data(digest, s.name, i * BLOCK, total, block)];
      i := i + 1;
    }
    var size := total % BLOCK;
    if size != 0 {
      sent := sent + [Data(digest, s.name, i * BLOCK, total, s.content[pos..pos + size])];
    }
  }

  // ------------------------------------------------------------------------
  // Deliveries in any order

  datatype Parcel = Parcel(file: nat, block: nat)

  predicate Sendable(srcs: seq<Source>, p: Parcel) {
    p.file < |srcs| && p.block < Count(|srcs[p.file].content|)
  }

  function Run(D: Digest, disk: Disk, srcs: seq<Source>, ps: seq<Parcel>): Disk
    requires forall j :: 0 <= j < |ps| ==> Sendable(srcs, ps[j])
  {
    if ps == [] then disk
    else
      var p := ps[|ps| - 1];
      assert Sendable(srcs, p);
      Deliver(D, Run(D, disk, srcs, ps[..|ps| - 1]), BlockOf(D, srcs[p.file], p.block))
  }

  /** Blocks of file `i` among the parcels. */
  function Arrived(ps: seq<Parcel>, i: nat): set<nat> {
    set p | p in ps && p.file == i :: p.block
  }

  /** Files of more than one block that differ in name and digest. */
  predicate Apart(D: Digest, srcs: seq<Source>) {
    && (forall i :: 0 <= i < |srcs| ==> |srcs[i].content| > BLOCK)
    && (forall i, j :: 0 <= i < j < |srcs| ==> srcs[i].name != srcs[j].name && D(srcs[i].content) != D(srcs[j].content))
  }

  /** Nothing of the file has been received, and the receiver does not have it already. */
  predicate NotBegun(D: Digest, disk: Disk, s: Source) {
    && D(s.content) !in disk.stores
    && (s.name in disk.files ==> D(disk.files[s.name]) != D(s.content))
  }

  predicate BlockRight(f: Bytes, s: Source, k: nat) {
    BLOCK * k <= End(s, k) <= |f| && f[BLOCK * k..End(s, k)] == s.content[BLOCK * k..End(s, k)]
  }

  predicate Begun(D: Digest, disk: Disk, s: Source, got: set<nat>) {
    && D(s.content) in disk.stores
    && disk.stores[D(s.content)] == Store(|s.content|, Count(|s.content|), got)
    && s.name in disk.files && |disk.files[s.name]| <= |s.content|
    && (forall k :: k in got ==> k < Count(|s.content|) && BlockRight(disk.files[s.name], s, k))
  }

  predicate Holds(D: Digest, disk: Disk, s: Source, got: set<nat>) {
    if got == {} then NotBegun(D, disk, s) else Begun(D, disk, s, got)
  }

  lemma WriteKeeps(f: Bytes, s: Source, j: nat, k: nat)
    requires j < Count(|s.content|) && k < Count(|s.content|) && |f| <= |s.content|
    requires j == k || BlockRight(f, s, j)
    ensures BlockRight(WriteAt(f, BLOCK * k, s.content[BLOCK * k..End(s, k)]), s, j)
  {
    var d := s.content[BLOCK * k..End(s, k)];
    var r := WriteAt(f, BLOCK * k, d);
    if j != k {
      var lo, hi := BLOCK * j, End(s, j);
      assert f[lo..hi] == s.content[lo..hi];
      forall p | lo <= p < hi
        ensures r[p] == s.content[p]
      {
        assert r[p] == f[p];
        assert f[p] == f[lo..hi][p - lo] && s.content[p] == s.content[lo..hi][p - lo];
      }
    }
  }

  /** A block of the file itself. */
  lemma DeliverOwn(D: Digest, disk: Disk, s: Source, got: set<nat>, k: nat)
    requires |s.content| > BLOCK && k < Count(|s.content|) && Holds(D, disk, s, got)
    ensures Begun(D, Deliver(D, disk, BlockOf(D, s, k)), s, got + {k})
    ensures !Refused(D, disk, BlockOf(D, s, k)) && !Short(BlockOf(D, s, k))
  {
    var pf := BlockOf(D, s, k);
    var d := Marked(Opened(disk, pf), pf);
    var f := Content(d.files, s.name);
    forall j | j in got + {k}
      ensures j < Count(|s.content|) && BlockRight(WriteAt(f, pf.offset, pf.data), s, j)
    {
      WriteKeeps(f, s, j, k);
    }
    assert {} + {k} == {k};
  }

  /** A block of another file. */
  lemma DeliverOther(D: Digest, disk: Disk, s: Source, got: set<nat>, pf: Data)
    requires Holds(D, disk, s, got) && pf.uuid != D(s.content) && pf.name != s.name
    ensures Holds(D, Deliver(D, disk, pf), s, got)
  {
  }

  lemma ArrivedMore(ps: seq<Parcel>, i: nat)
    requires ps != []
    ensures var p := ps[|ps| - 1];
      Arrived(ps, i) == if p.file == i then Arrived(ps[..|ps| - 1], i) + {p.block} else Arrived(ps[..|ps| - 1], i)
  {
    var p, most := ps[|ps| - 1], ps[..|ps| - 1];
    assert ps == most + [p];
  }

  /** After any deliveries the marks of each file are the blocks that have arrived, and every
      marked block of the file on disk is that of the source. */
  lemma {:induction false} RunHolds(D: Digest, disk: Disk, srcs: seq<Source>, ps: seq<Parcel>, i: nat)
    requires Apart(D, srcs) && i < |srcs| && NotBegun(D, disk, srcs[i])
    requires forall j :: 0 <= j < |ps| ==> Sendable(srcs, ps[j])
    ensures Holds(D, Run(D, disk, srcs, ps), srcs[i], Arrived(ps, i))
  {
    hide Deliver, Begun, NotBegun;
    if ps == [] {
      assert Arrived(ps, i) == {};
    } else {
      var p, most := ps[|ps| - 1], ps[..|ps| - 1];
      RunHolds(D, disk, srcs, most, i);
      ArrivedMore(ps, i);
      var before := Run(D, disk, srcs, most);
      if p.file == i {
        DeliverOwn(D, before, srcs[i], Arrived(most, i), p.block);
      } else {
        DeliverOther(D, before, srcs[i], Arrived(most, i), BlockOf(D, srcs[p.file], p.block));
      }
    }
  }

  predicate AllBlocks(s: Source, got: set<nat>) { forall k :: 0 <= k < Count(|s.content|) ==> k in got }

  /** All blocks in place are the whole file. */
  lemma WholeFile(D: Digest, disk: Disk, s: Source, got: set<nat>)
    requires Begun(D, disk, s, got) && AllBlocks(s, got)
    ensures disk.files[s.name] == s.content
  {
    var f := disk.files[s.name];
    var n := Count(|s.content|);
    if n > 0 {
      assert BlockRight(f, s, n - 1);
    }
    forall p | 0 <= p < |s.content|
      ensures p < |f| && f[p] == s.content[p]
    {
      ByteRight(f, s, p / BLOCK, p);
    }
  }

  lemma ByteRight(f: Bytes, s: Source, k: nat, p: nat)
    requires BlockRight(f, s, k) && BLOCK * k <= p < End(s, k) <= |s.content|
    ensures p < |f| && f[p] == s.content[p]
  {
    var lo, hi := BLOCK * k, End(s, k);
    assert f[lo..hi][p - lo] == s.content[lo..hi][p - lo];
  }

  /** For any files of more than one block and any deliveries of their blocks: the receiver
      reports a file exactly with the deliveries that find all its blocks arrived, and then the
      file on disk is the source, which the report confirms. */
  lemma TransferCorrect(D: Digest, disk: Disk, srcs: seq<Source>, ps: seq<Parcel>, p: Parcel)
    requires Apart(D, srcs)
    requires forall i :: 0 <= i < |srcs| ==> NotBegun(D, disk, srcs[i])
    requires forall j :: 0 <= j < |ps| ==> Sendable(srcs, ps[j])
    requires Sendable(srcs, p)
    ensures var s := srcs[p.file];
      var before := Run(D, disk, srcs, ps);
      var all := AllBlocks(s, Arrived(ps, p.file) + {p.block});
      && Reply(D, before, BlockOf(D, s, p.block)) == (if all then Notice(D(s.content), s.name, 1) else Silent)
      && (all ==> Content(Deliver(D, before, BlockOf(D, s, p.block)).files, s.name) == s.content)
  {
    hide Deliver, NotBegun, Refused;
    var s, got := srcs[p.file], Arrived(ps, p.file);
    var before := Run(D, disk, srcs, ps);
    var after := Deliver(D, before, BlockOf(D, s, p.block));
    RunHolds(D, disk, srcs, ps, p.file);
    DeliverOwn(D, before, s, got, p.block);
    if AllBlocks(s, got + {p.block}) {
      WholeFile(D, after, s, got + {p.block});
    }
  }

  /** A file that fits one message. */
  lemma ShortFile(D: Digest, disk: Disk, s: Source)
    requires 0 < |s.content| <= BLOCK && NotBegun(D, disk, s)
    ensures Deliver(D, disk, BlockOf(D, s, 0)).files == disk.files[s.name := s.content]
    ensures Reply(D, disk, BlockOf(D, s, 0)) == Notice(D(s.content), s.name, 1)
  {
    var pf := BlockOf(D, s, 0);
    assert pf.data == s.content;
    var r := WriteAt([], 0, pf.data);
    assert r[0..|pf.data|] == r;
  }

  // ------------------------------------------------------------------------
  // The receiver

  class Entry {
    const size: nat
    const blocks: nat
    const marks: array<octet>

    /** The record is created with no mark set. */
    constructor (total: nat)
      ensures fresh(marks) && Shows(Store(total, Count(total), {}))
    {
      hide Bit;
      size := total;
      var n := (total + (BLOCK - 1)) / BLOCK;
      blocks := n;
      marks := new octet[(n + 7) / 8](_ => 0);
      new;
      forall k | 0 <= k < 8 * marks.Length
        ensures !BitAt(marks[..], k)
      {
        ClearBit(k % 8);
      }
    }

    ghost predicate Shows(st: Store)
      reads marks
    {
      && size == st.size && blocks == st.blocks && marks.Length == (blocks + 7) / 8
      && (forall k :: k in st.got ==> k < blocks)
      && (forall k :: 0 <= k < 8 * marks.Length ==> (BitAt(marks[..], k) <==> k in st.got))
    }

    method Mark(site: nat, ghost st: Store)
      requires Shows(st) && site < blocks
      modifies marks
      ensures Shows(Store(st.size, st.blocks, st.got + {site}))
    {
      hide BitAt;
      Bitmap.Set(marks, site);
    }

    method IsComplete(ghost st: Store) returns (r: bool)
      requires Shows(st)
      ensures r == Complete(st)
    {
      hide BitAt;
      r := Bitmap.IsAllSet(marks, blocks);
      assert forall k :: 0 <= k < 8 * marks.Length ==> (BitAt(marks[..], k) <==> k in st.got);
      assert Complete(st) ==> forall k :: 0 <= k < 8 * marks.Length ==> (BitAt(marks[..], k) <==> k < blocks);
      assert r ==> forall k :: 0 <= k < blocks ==> BitAt(marks[..], k);
    }
  }

  lemma SameBlocks(e: Entry, st: Store)
    requires e.Shows(st)
    ensures e.blocks == st.blocks
  {
  }

  lemma ClearBit(i: nat)
    requires i < 8
    ensures !Bit(0, i)
  {
  }

  /** The block lies in the bitmap of its file. */
  ghost predicate InFile(disk: Disk, pf: Data) {
    Short(pf) || pf.offset / BLOCK < (if pf.uuid in disk.stores then disk.stores[pf.uuid].blocks else Count(pf.total))
  }

  lemma OpenedKnown(disk: Disk, pf: Data)
    requires pf.uuid in disk.stores
    ensures Opened(disk, pf) == disk
  {
  }

  lemma OpenedNew(disk: Disk, pf: Data)
    requires pf.uuid !in disk.stores
    ensures Opened(disk, pf).stores.Keys == disk.stores.Keys + {pf.uuid}
    ensures Opened(disk, pf).stores[pf.uuid].blocks == Count(pf.total)
  {
  }

  /** `disk` is what the receiver stands for. */
  class Receiver {
    const D: Digest
    var stores: map<Uuid, Entry>
    var files: map<string, Bytes>
    ghost var disk: Disk

    ghost function Marks(): set<array<octet>>
      reads this
    {
      set u | u in stores :: stores[u].marks
    }

    ghost predicate Valid()
      reads this, Marks()
    {
      && files == disk.files && stores.Keys == disk.stores.Keys
      && (forall u :: u in stores ==> stores[u].Shows(disk.stores[u]))
      && (forall u, v :: u in stores && v in stores && u != v ==> stores[u].marks != stores[v].marks)
    }

    constructor (D: Digest, files: map<string, Bytes>)
      ensures Valid() && this.D == D && disk == Disk(map[], files)
    {
      this.D := D;
      this.stores := map[];
      this.files := files;
      this.disk := Disk(map[], files);
    }

    /** `_is_samefile_exists`. */
    method IsSameFile(pf: Data) returns (c: Check)
      ensures c == SameFile(D, files, pf)
    {
      if pf.name in files {
        return if pf.uuid != D(files[pf.name]) then Differs else Same;
      }
      c := Absent;
    }

    /** `get_filedata_from_message`. */
    method Save(pf: Data)
      requires Valid()
      modifies this`files, this`disk
      ensures Valid() && disk == Disk(old(disk.stores), Stored(old(disk.files), pf))
    {
      hide WriteAt, Entry.Shows;
      files := files[pf.name := WriteAt(if pf.name in files then files[pf.name] else [], pf.offset, pf.data)];
      disk := Disk(disk.stores, files);
    }

    /** A store for a file whose first block comes in. */
    method Open(pf: Data)
      requires Valid() && pf.uuid !in stores
      modifies this
      ensures Valid() && disk == Opened(old(disk), pf)
      ensures pf.uuid in stores && fresh(Marks() - old(Marks()))
    {
      hide Entry.Shows, Count;
      var e := new Entry(pf.total);
      files := files - {pf.name};
      stores := stores[pf.uuid := e];
      disk := Opened(disk, pf);
    }

    /** `proc_file_receive`. The block must lie within the file, as the program assumes. */
    method Receive(pf: Data) returns (r: Notice)
      requires Valid() && InFile(disk, pf)
      modifies this, Marks()
      ensures Valid() && disk == Deliver(D, old(disk), pf) && r == Reply(D, old(disk), pf)
      ensures fresh(Marks() - old(Marks()))
    {
      hide Entry.Shows, Stored, Opened, Marked;
      if |pf.data| == pf.total {
        r := ReceiveShort(pf);
        return;
      }
      if pf.uuid !in stores {
        var c := IsSameFile(pf);
        if c == Same { return Silent; }
        OpenedNew(disk, pf);
        Open(pf);
      } else {
        OpenedKnown(disk, pf);
      }
      r := ReceiveBlock(pf);
    }

    /** A file in one message. */
    method ReceiveShort(pf: Data) returns (r: Notice)
      requires Valid() && Short(pf)
      modifies this`files, this`disk
      ensures Valid() && disk == Deliver(D, old(disk), pf) && r == Reply(D, old(disk), pf)
    {
      hide Entry.Shows, Stored, Opened, Marked;
      var c := IsSameFile(pf);
      if c == Same { return Notice(pf.uuid, pf.name, 0); }
      files := files - {pf.name};
      disk := Disk(disk.stores, files);
      Save(pf);
      c := IsSameFile(pf);
      r := Notice(pf.uuid, pf.name, if c == Same then 1 else 0);
    }

    /** A block of a file under way: mark, write, report. */
    method ReceiveBlock(pf: Data) returns (r: Notice)
      requires Valid() && pf.uuid in stores && pf.offset / BLOCK < disk.stores[pf.uuid].blocks
      modifies this`files, this`disk, stores[pf.uuid].marks
      ensures Valid() && disk == Disk(Marked(old(disk), pf).stores, Stored(Marked(old(disk), pf).files, pf))
      ensures r == if pf.uuid in disk.stores && Complete(disk.stores[pf.uuid]) then Verdict(D, disk.files, pf) else Silent
    {
      hide Entry.Shows, Stored;
      SetMark(pf);
      Save(pf);
      var done := stores[pf.uuid].IsComplete(disk.stores[pf.uuid]);
      if !done { return Silent; }
      var c := IsSameFile(pf);
      r := Notice(pf.uuid, pf.name, if c == Same then 1 else 0);
    }

    method SetMark(pf: Data)
      requires Valid() && pf.uuid in stores && pf.offset / BLOCK < disk.stores[pf.uuid].blocks
      modifies this`disk, stores[pf.uuid].marks
      ensures Valid() && disk == Marked(old(disk), pf)
    {
      hide Entry.Shows;
      var e := stores[pf.uuid];
      SameBlocks(e, disk.stores[pf.uuid]);
      e.Mark(pf.offset / BLOCK, disk.stores[pf.uuid]);
      disk := Marked(disk, pf);
      assert forall u :: u in stores && u != pf.uuid ==> stores[u].marks != e.marks;
    }
  }

  /** The messages of the senders, delivered in the order of the parcels: the receiver
      ends with the disk of the run, so that each file all of whose blocks are among the
      parcels is there. */
  method Transfer(D: Digest, files: map<string, Bytes>, srcs: seq<Source>, ps: seq<Parcel>) returns (rc: Receiver)
    requires Apart(D, srcs)
    requires forall i :: 0 <= i < |srcs| ==> NotBegun(D, Disk(map[], files), srcs[i])
    requires forall j :: 0 <= j < |ps| ==> Sendable(srcs, ps[j])
    ensures rc.Valid() && rc.disk == Run(D, Disk(map[], files), srcs, ps)
    ensures forall i :: 0 <= i < |srcs| && AllBlocks(srcs[i], Arrived(ps, i)) ==> Content(rc.files, srcs[i].name) == srcs[i].content
  {
    hide Deliver, Begun, NotBegun, Reply, Arrived, Entry.Shows, BlockOf, Apart;
    rc := new Receiver(D, files);
    ghost var disk := rc.disk;
    for j := 0 to |ps|
      invariant rc.Valid() && rc.D == D && fresh(rc) && fresh(rc.Marks())
      invariant rc.disk == Run(D, disk, srcs, ps[..j])
    {
      var p := ps[j];
      assert Sendable(srcs, p);
      var sent := Send(D, srcs[p.file]);
      assert ps[..j + 1][..j] == ps[..j];
      BlockInFile(D, disk, srcs, ps[..j], p);
      var _ := rc.Receive(sent[p.block]);
    }
    assert ps[..|ps|] == ps;
    forall i | 0 <= i < |srcs| && AllBlocks(srcs[i], Arrived(ps, i))
      ensures Content(rc.files, srcs[i].name) == srcs[i].content
    {
      RunComplete(D, disk, srcs, ps, i);
    }
  }

  lemma BlockInFile(D: Digest, disk: Disk, srcs: seq<Source>, ps: seq<Parcel>, p: Parcel)
    requires Apart(D, srcs) && Sendable(srcs, p) && NotBegun(D, disk, srcs[p.file])
    requires forall j :: 0 <= j < |ps| ==> Sendable(srcs, ps[j])
    ensures InFile(Run(D, disk, srcs, ps), BlockOf(D, srcs[p.file], p.block))
  {
    RunHolds(D, disk, srcs, ps, p.file);
  }

  /** A file all of whose blocks have arrived is on disk. */
  lemma RunComplete(D: Digest, disk: Disk, srcs: seq<Source>, ps: seq<Parcel>, i: nat)
    requires Apart(D, srcs) && i < |srcs| && NotBegun(D, disk, srcs[i])
    requires forall j :: 0 <= j < |ps| ==> Sendable(srcs, ps[j])
    requires AllBlocks(srcs[i], Arrived(ps, i))
    ensures Content(Run(D, disk, srcs, ps).files, srcs[i].name) == srcs[i].content
  {
    hide Begun, NotBegun;
    RunHolds(D, disk, srcs, ps, i);
    assert 0 in Arrived(ps, i);
    WholeOnDisk(D, Run(D, disk, srcs, ps), srcs[i], Arrived(ps, i));
  }

  lemma WholeOnDisk(D: Digest, disk: Disk, s: Source, got: set<nat>)
    requires Begun(D, disk, s, got) && AllBlocks(s, got)
    ensures Content(disk.files, s.name) == s.content
  {
    WholeFile(D, disk, s, got);
  }
}
