/** One floppy drive: the head/sector odometer kept by the controller, and the
    image file underneath it, whose position is only ever moved relatively. */
module FloppyDrive {
  import opened Words

  const SECTOR_SZ := 0x200
  const NO_SECTORS := 18
  const NO_HEADS := 2
  const NO_TRACKS := 80
  const DISK_SZ := 1474560 // 80 tracks of 2 heads of 18 sectors of 512 bytes

  datatype Drive = Drive(present: bool,
                         track: nat, head: nat, sector: nat, progress: nat,
                         pos: nat, image: seq<byte>)

  predicate ValidChs(track: int, head: int, sector: int) {
    0 <= track < NO_TRACKS && 0 <= head < NO_HEADS && 1 <= sector <= NO_SECTORS
  }

  /** Offset of the first byte of a sector in the image: two heads of 18 sectors of
      512 bytes to a track. */
  function Base(track: int, head: int, sector: int): int {
    ((track * 2 + head) * 18 + sector - 1) * 0x200
  }

  predicate InRange(d: Drive) {
    ValidChs(d.track, d.head, d.sector) && d.progress < SECTOR_SZ
  }

  /** The byte offset that the odometer stands for. */
  function Linear(d: Drive): int {
    Base(d.track, d.head, d.sector) + d.progress
  }

  /** An offset on a disk without end. */
  function Wrapped(x: int): int {
    x % DISK_SZ
  }

  lemma WrappedOnce(x: int)
    requires 0 <= x <= DISK_SZ
    ensures Wrapped(x) == if x < DISK_SZ then x else 0
  {
  }

  /** The odometer and the file position agree, over a full image. */
  predicate Synced(d: Drive) {
    d.present && InRange(d) && |d.image| == DISK_SZ && d.pos == Linear(d)
  }

  /** Between commands: synced, at the start of a sector. */
  predicate Aligned(d: Drive) {
    Synced(d) && d.progress == 0
  }

  // ---------------------------------------------------------------- operations

  function Advance(d: Drive): Drive {
    if d.progress < SECTOR_SZ - 1 then d.(progress := d.progress + 1)
    else if d.sector < NO_SECTORS then d.(progress := 0, sector := d.sector + 1)
    else if d.head < NO_HEADS - 1 then d.(progress := 0, sector := 1, head := d.head + 1)
    else if d.track < NO_TRACKS - 1 then d.(progress := 0, sector := 1, head := 0, track := d.track + 1)
    else d.(progress := 0, sector := 1, head := 0, track := 0)
  }

  /** `fread` of one byte: at the end of the file nothing moves and 0 is returned. */
  function FileGet(d: Drive): (Drive, byte) {
    if d.pos < |d.image| then (d.(pos := d.pos + 1), d.image[d.pos]) else (d, 0)
  }

  /** `fwrite` of one byte: past the end the file grows, the gap filled with 0. */
  function FilePut(d: Drive, v: byte): Drive {
    var image := if d.pos < |d.image| then d.image[d.pos := v]
                 else d.image + seq(d.pos - |d.image|, _ => 0) + [v];
    d.(image := image, pos := d.pos + 1)
  }

  /** `fseek` from the current position: a negative target is refused. */
  function FileSeek(d: Drive, offset: int): Drive {
    if d.pos + offset < 0 then d else d.(pos := d.pos + offset)
  }

  function ReadByte(d: Drive): (Drive, byte) {
    (Advance(FileGet(d).0), FileGet(d).1)
  }

  function WriteByte(d: Drive, v: byte): Drive {
    Advance(FilePut(d, v))
  }

  function SeekOffset(d: Drive, track: int, head: int, sector: int): int {
    (sector - d.sector) * 0x200 + (head - d.head) * 0x200 * 18 + (track - d.track) * 0x200 * 18 * 2
  }

  /** `None` is the source's fatal error: no disk, or an address off the disk. */
  function Seek(d: Drive, track: int, head: int, sector: int): Option<Drive> {
    if d.present && ValidChs(track, head, sector) then
      Some(FileSeek(d.(track := track, head := head, sector := sector, progress := 0),
                    SeekOffset(d, track, head, sector)))
    else None
  }

  // ---------------------------------------------------------------- the odometer

  /** Carrying through progress, sector, head and track is adding one modulo the
      size of the disk; the file is left alone. */
  lemma AdvanceIsSuccessor(d: Drive)
    requires InRange(d)
    ensures InRange(Advance(d))
    ensures 0 <= Linear(d) < DISK_SZ
    ensures Linear(Advance(d)) == Wrapped(Linear(d) + 1)
    ensures Advance(d).pos == d.pos && Advance(d).image == d.image && Advance(d).present == d.present
  {
  }

  lemma AdvanceKeepsFile(d: Drive)
    ensures Advance(d).pos == d.pos && Advance(d).image == d.image && Advance(d).present == d.present
  {
  }

  /** The odometer is a faithful number: one offset, one setting. */
  lemma LinearInjective(d: Drive, e: Drive)
    requires InRange(d) && InRange(e) && Linear(d) == Linear(e)
    ensures (d.track, d.head, d.sector, d.progress) == (e.track, e.head, e.sector, e.progress)
  {
    var a, b := (d.track * 2 + d.head) * 18 + d.sector - 1,
                (e.track * 2 + e.head) * 18 + e.sector - 1;
    assert a == b && d.progress == e.progress;
    assert d.track * 2 + d.head == e.track * 2 + e.head;
  }

  /** The relative seek lands on the absolute sector exactly when the position was
      the base of the remembered sector (unless the file refuses a negative target):
      `progress` plays no part, so a seek in mid-sector is off by that progress. */
  lemma SeekLandsIff(d: Drive, track: int, head: int, sector: int)
    requires d.present && InRange(d) && ValidChs(track, head, sector)
    ensures var e := Seek(d, track, head, sector).value;
            && Linear(e) == Base(track, head, sector) && e.progress == 0 && InRange(e)
            && e.image == d.image && e.present
            && (d.pos == Base(d.track, d.head, d.sector) ==> e.pos == Base(track, head, sector))
            && (d.pos + SeekOffset(d, track, head, sector) >= 0 && e.pos == Base(track, head, sector)
                ==> d.pos == Base(d.track, d.head, d.sector))
  {
    assert SeekOffset(d, track, head, sector)
        == Base(track, head, sector) - Base(d.track, d.head, d.sector);
  }

  /** From the middle of a sector every seek overshoots by exactly the progress. */
  lemma SeekOvershoots(d: Drive, track: int, head: int, sector: int)
    requires Synced(d) && ValidChs(track, head, sector)
    ensures Seek(d, track, head, sector).value.pos == Base(track, head, sector) + d.progress
  {
    assert SeekOffset(d, track, head, sector)
        == Base(track, head, sector) - Base(d.track, d.head, d.sector);
  }

  // ---------------------------------------------------------------- transfers

  /** The drive after n bytes read, and the bytes. */
  function ReadRun(d: Drive, n: nat): (r: (Drive, seq<byte>))
    ensures |r.1| == n
  {
    if n == 0 then (d, [])
    else
      var (e, bytes) := ReadRun(d, n - 1);
      (ReadByte(e).0, bytes + [ReadByte(e).1])
  }

  function WriteRun(d: Drive, data: seq<byte>): Drive {
    if data == [] then d
    else WriteByte(WriteRun(d, data[..|data| - 1]), data[|data| - 1])
  }

  /** One byte read below the end of the image keeps the drive synced unless it was
      the last byte. */
  lemma ReadByteSynced(d: Drive)
    requires Synced(d)
    ensures ReadByte(d).1 == d.image[d.pos]
    ensures ReadByte(d).0.pos == d.pos + 1 && ReadByte(d).0.image == d.image
    ensures Synced(ReadByte(d).0) <==> d.pos + 1 < DISK_SZ
  {
    AdvanceIsSuccessor(d);
    AdvanceIsSuccessor(FileGet(d).0);
  }

  lemma WriteByteSynced(d: Drive, v: byte)
    requires Synced(d)
    ensures WriteByte(d, v).pos == d.pos + 1 && WriteByte(d, v).image == d.image[d.pos := v]
    ensures Synced(WriteByte(d, v)) <==> d.pos + 1 < DISK_SZ
  {
    AdvanceIsSuccessor(d);
    AdvanceIsSuccessor(FilePut(d, v));
  }

  lemma SuccessorMod(a: int, n: nat)
    requires 0 <= a && n > 0
    ensures Wrapped(Wrapped(a + n - 1) + 1) == Wrapped(a + n)
  {
  }

  lemma {:induction false} ReadRunOdometer(d: Drive, n: nat)
    requires InRange(d)
    ensures var e := ReadRun(d, n).0;
            InRange(e) && e.present == d.present && e.image == d.image
            && Linear(e) == Wrapped(Linear(d) + n)
  {
    hide Advance, Base, Wrapped;
    AdvanceIsSuccessor(d);
    if n == 0 {
      WrappedOnce(Linear(d));
    } else {
      ReadRunOdometer(d, n - 1);
      var e := ReadRun(d, n - 1).0;
      AdvanceIsSuccessor(FileGet(e).0);
      SuccessorMod(Linear(d), n);
    }
  }

  /** A run of reads returns the image bytes from the file position on, and zeros
      past the end of the image. */
  lemma {:induction false} ReadRunBytes(d: Drive, n: nat)
    requires d.pos <= |d.image|
    ensures var (e, bytes) := ReadRun(d, n);
            && e.image == d.image
            && e.pos == (if d.pos + n <= |d.image| then d.pos + n else |d.image|)
            && forall i :: 0 <= i < n ==> bytes[i] == if d.pos + i < |d.image| then d.image[d.pos + i] else 0
  {
    hide Advance;
    if n > 0 {
      ReadRunBytes(d, n - 1);
      var (e, bytes) := ReadRun(d, n - 1);
      AdvanceKeepsFile(FileGet(e).0);
      assert ReadRun(d, n).1 == bytes + [FileGet(e).1];
      assert ReadRun(d, n).0 == Advance(FileGet(e).0);
    }
  }

  /** Reading leaves a synced drive synced exactly when it stays clear of the last
      byte of the image. */
  lemma ReadRunSynced(d: Drive, n: nat)
    requires Synced(d)
    ensures var (e, bytes) := ReadRun(d, n);
            && InRange(e) && e.image == d.image && Linear(e) == Wrapped(d.pos + n)
            && e.pos == (if d.pos + n <= DISK_SZ then d.pos + n else DISK_SZ)
            && (forall i :: 0 <= i < n ==> bytes[i] == if d.pos + i < DISK_SZ then d.image[d.pos + i] else 0)
            && (Synced(e) <==> d.pos + n < DISK_SZ)
  {
    hide Advance, Base, Wrapped, ReadRun;
    AdvanceIsSuccessor(d);
    ReadRunOdometer(d, n);
    ReadRunBytes(d, n);
    AdvanceIsSuccessor(ReadRun(d, n).0);
    if d.pos + n <= DISK_SZ {
      WrappedOnce(d.pos + n);
    }
  }

  lemma {:induction false} WriteRunSynced(d: Drive, data: seq<byte>)
    requires Synced(d) && d.pos + |data| <= DISK_SZ
    ensures var e := WriteRun(d, data);
            && InRange(e) && e.present && e.pos == d.pos + |data|
            && e.image == d.image[..d.pos] + data + d.image[d.pos + |data|..]
            && Linear(e) == Wrapped(d.pos + |data|)
            && (Synced(e) <==> d.pos + |data| < DISK_SZ)
  {
    hide Advance, Base, Wrapped;
    AdvanceIsSuccessor(d);
    WrappedOnce(d.pos + |data|);
    if data != [] {
      WrappedOnce(d.pos + |data| - 1);
      var init := data[..|data| - 1];
      WriteRunSynced(d, init);
      var e := WriteRun(d, init);
      WriteByteSynced(e, data[|data| - 1]);
      AdvanceIsSuccessor(FilePut(e, data[|data| - 1]));
    }
  }

  /** What a client asks for between two command boundaries: a seek to a sector,
      then that many whole sectors read, or written. */
  datatype Command = ReadSectors(track: nat, head: nat, sector: nat, count: nat)
                   | WriteSectors(track: nat, head: nat, sector: nat, data: seq<byte>)

  function Length(c: Command): nat {
    if c.ReadSectors? then c.count * 0x200 else |c.data|
  }

  function Start(c: Command): int {
    Base(c.track, c.head, c.sector)
  }

  predicate WholeSectors(c: Command) {
    ValidChs(c.track, c.head, c.sector) && Length(c) % 0x200 == 0
  }

  function Perform(d: Drive, c: Command): Drive
    requires d.present && WholeSectors(c)
  {
    var e := Seek(d, c.track, c.head, c.sector).value;
    if c.ReadSectors? then ReadRun(e, Length(c)).0 else WriteRun(e, c.data)
  }

  predicate StaysOnDisk(c: Command) {
    Start(c) + Length(c) < DISK_SZ
  }

  lemma BaseAtSector(track: int, head: int, sector: int)
    ensures Base(track, head, sector) % 0x200 == 0
  {
  }

  lemma WholeSectorProgress(d: Drive, offset: nat)
    requires InRange(d) && Linear(d) == offset && offset % 0x200 == 0
    ensures d.progress == 0
  {
    assert Linear(d) == ((d.track * 2 + d.head) * 18 + d.sector - 1) * 0x200 + d.progress;
  }

  /** A whole-sector command keeps an aligned drive aligned exactly when it does not
      transfer the last byte of the image. */
  lemma CommandKeepsAlignedIff(d: Drive, c: Command)
    requires Aligned(d) && WholeSectors(c) && Start(c) + Length(c) <= DISK_SZ
    ensures Aligned(Perform(d, c)) <==> StaysOnDisk(c)
    ensures Perform(d, c).pos == Start(c) + Length(c)
    ensures c.ReadSectors? ==> Perform(d, c).image == d.image
    ensures c.WriteSectors? ==>
              Perform(d, c).image == d.image[..Start(c)] + c.data + d.image[Start(c) + Length(c)..]
  {
    hide Base, ReadRun, WriteRun, SeekOffset;
    SeekLandsIff(d, c.track, c.head, c.sector);
    var e := Seek(d, c.track, c.head, c.sector).value;
    assert Synced(e) && e.pos == Start(c) && e.image == d.image;
    TransferSynced(e, c);
    BaseAtSector(c.track, c.head, c.sector);
    if StaysOnDisk(c) {
      WholeSectorProgress(Perform(d, c), Start(c) + Length(c));
    }
  }

  lemma TransferSynced(e: Drive, c: Command)
    requires Synced(e) && e.pos == Start(c) && Start(c) + Length(c) <= DISK_SZ
    ensures var f := if c.ReadSectors? then ReadRun(e, Length(c)).0 else WriteRun(e, c.data);
            && (Synced(f) <==> StaysOnDisk(c)) && f.pos == Start(c) + Length(c)
            && f.image == if c.ReadSectors? then e.image
                          else e.image[..Start(c)] + c.data + e.image[Start(c) + Length(c)..]
  {
    if c.ReadSectors? {
      ReadRunSynced(e, Length(c));
    } else {
      WriteRunSynced(e, c.data);
    }
  }

  /** Reading on from sector 1 of a track gives its eighteen sectors. */
  lemma TrackBytes(d: Drive, track: nat, head: nat, start: nat)
    requires Aligned(d) && track < 80 && head < 2 && start == 9216 * (2 * track + head)
    ensures start + 9216 <= |d.image| && Seek(d, track, head, 1).Some?
    ensures ReadRun(Seek(d, track, head, 1).value, 9216).1 == d.image[start..start + 9216]
  {
    hide ReadRun, SeekOffset, Base;
    TrackStart(track, head);
    SeekLandsIff(d, track, head, 1);
    ReadRunSynced(Seek(d, track, head, 1).value, 9216);
  }

  lemma TrackStart(track: nat, head: nat)
    requires track < 80 && head < 2
    ensures Base(track, head, 1) == 9216 * (2 * track + head) <= DISK_SZ - 9216
  {
  }

  function PerformAll(d: Drive, cs: seq<Command>): Drive
    requires d.present && forall i :: 0 <= i < |cs| ==> WholeSectors(cs[i])
    ensures PerformAll(d, cs).present
  {
    if cs == [] then d
    else
      var e := PerformAll(d, cs[..|cs| - 1]);
      PresentKept(e, cs[|cs| - 1]);
      Perform(e, cs[|cs| - 1])
  }

  lemma PresentKept(d: Drive, c: Command)
    requires d.present && WholeSectors(c)
    ensures Perform(d, c).present
  {
    var e := Seek(d, c.track, c.head, c.sector).value;
    if c.ReadSectors? {
      ReadRunPresent(e, Length(c));
    } else {
      WriteRunPresent(e, c.data);
    }
  }

  lemma ReadRunPresent(d: Drive, n: nat)
    ensures ReadRun(d, n).0.present == d.present
  {
  }

  lemma WriteRunPresent(d: Drive, data: seq<byte>)
    ensures WriteRun(d, data).present == d.present
  {
  }

  /** Over any run of whole-sector commands clear of the last byte, the position at
      every command boundary is the absolute offset of the remembered sector. */
  lemma {:induction false} RunStaysAligned(d: Drive, cs: seq<Command>)
    requires Aligned(d)
    requires forall i :: 0 <= i < |cs| ==> WholeSectors(cs[i]) && StaysOnDisk(cs[i])
    ensures Aligned(PerformAll(d, cs))
    ensures cs != [] ==> PerformAll(d, cs).pos == Start(cs[|cs| - 1]) + Length(cs[|cs| - 1])
  {
    if cs != [] {
      RunStaysAligned(d, cs[..|cs| - 1]);
      CommandKeepsAlignedIff(PerformAll(d, cs[..|cs| - 1]), cs[|cs| - 1]);
    }
  }

  /** The last sector is the one that may not be touched: after reading it, reading
      the first sector yields zeros whatever the image holds. */
  lemma LastSectorDerails(d: Drive, e: Drive)
    requires Aligned(d) && e == Perform(d, ReadSectors(79, 1, 18, 1))
    ensures e.present
    ensures forall i :: 0 <= i < SECTOR_SZ ==> ReadRun(Seek(e, 0, 0, 1).value, SECTOR_SZ).1[i] == 0
  {
    AfterLast(d, e);
    AtStart(e);
    SeekStaysPut(e);
    hide Seek, ReadRun;
    ReadPastEnd(Seek(e, 0, 0, 1).value, SECTOR_SZ);
  }

  lemma AfterLast(d: Drive, e: Drive)
    requires Aligned(d) && e == Perform(d, ReadSectors(79, 1, 18, 1))
    ensures e.present && InRange(e) && Linear(e) == 0 && e.pos == DISK_SZ && |e.image| == DISK_SZ
  {
    hide ReadRun, Wrapped, Base, SeekOffset;
    SeekLandsIff(d, 79, 1, 18);
    LastBase();
    var last := Seek(d, 79, 1, 18).value;
    ReadRunSynced(last, 0x200);
    ReadRunPresent(last, 0x200);
    WrappedOnce(DISK_SZ);
  }

  lemma LastBase()
    ensures Base(79, 1, 18) == DISK_SZ - 0x200
  {
  }

  lemma AtStart(e: Drive)
    requires InRange(e) && Linear(e) == 0
    ensures (e.track, e.head, e.sector, e.progress) == (0, 0, 1, 0)
  {
  }

  lemma SeekStaysPut(e: Drive)
    requires e.present && (e.track, e.head, e.sector) == (0, 0, 1)
    ensures Seek(e, 0, 0, 1).Some? && Seek(e, 0, 0, 1).value.pos == e.pos && Seek(e, 0, 0, 1).value.image == e.image
  {
  }

  lemma {:induction false} ReadPastEnd(d: Drive, n: nat)
    requires d.pos >= |d.image|
    ensures ReadRun(d, n).0.pos == d.pos && ReadRun(d, n).0.image == d.image
    ensures forall i :: 0 <= i < n ==> ReadRun(d, n).1[i] == 0
  {
    hide Advance;
    if n > 0 {
      ReadPastEnd(d, n - 1);
      AdvanceKeepsFile(FileGet(ReadRun(d, n - 1).0).0);
    }
  }

  // ---------------------------------------------------------------- the object

  /** The drive record of the controller, updated in place. */
  class Unit {
    var present: bool
    var track: nat
    var head: nat
    var sector: nat
    var progress: nat
    var pos: nat
    var image: seq<byte>

    ghost function Model(): Drive
      reads this
    {
      Drive(present, track, head, sector, progress, pos, image)
    }

    constructor Insert(image: seq<byte>)
      ensures Model() == Drive(true, 0, 0, 1, 0, 0, image)
      ensures |image| == DISK_SZ ==> Aligned(Model())
    {
      this.present, this.image := true, image;
      track, head, sector, progress, pos := 0, 0, 1, 0, 0;
    }

    method AdvancePos()
      requires InRange(Model())
      modifies `track, `head, `sector, `progress
      ensures Model() == Advance(old(Model()))
      ensures InRange(Model()) && Linear(Model()) == Wrapped(Linear(old(Model())) + 1)
    {
      AdvanceIsSuccessor(Model());
      if progress < SECTOR_SZ - 1 {
        progress := progress + 1;
        return;
      }
      progress := 0;
      if sector < NO_SECTORS {
        sector := sector + 1;
        return;
      }
      sector := 1;
      if head < NO_HEADS - 1 {
        head := head + 1;
        return;
      }
      head := 0;
      if track < NO_TRACKS - 1 {
        track := track + 1;
        return;
      }
      track := 0;
    }

    method ReadByteFromDrive() returns (v: byte)
      requires InRange(Model())
      modifies this
      ensures (Model(), v) == ReadByte(old(Model()))
      ensures old(pos < |image|) ==> v == old(image[pos]) && pos == old(pos) + 1
      ensures InRange(Model()) && Linear(Model()) == Wrapped(Linear(old(Model())) + 1)
    {
      hide Advance, Base, Wrapped;
      AdvanceKeepsFile(FileGet(Model()).0);
      if pos < |image| {
        v := image[pos];
        pos := pos + 1;
      } else {
        v := 0;
      }
      AdvancePos();
    }

    method WriteByteToDrive(v: byte)
      requires InRange(Model())
      modifies this
      ensures Model() == WriteByte(old(Model()), v)
      ensures pos == old(pos) + 1 && pos <= |image| && image[old(pos)] == v
      ensures InRange(Model()) && Linear(Model()) == Wrapped(Linear(old(Model())) + 1)
    {
      hide Advance, Base, Wrapped;
      AdvanceKeepsFile(FilePut(Model(), v));
      image := if pos < |image| then image[pos := v] else image + seq(pos - |image|, _ => 0) + [v];
      pos := pos + 1;
      AdvancePos();
    }

    method SeekTo(t: nat, h: nat, s: nat) returns (offset: int)
      requires present && InRange(Model()) && ValidChs(t, h, s)
      modifies `track, `head, `sector, `progress, `pos
      ensures Seek(old(Model()), t, h, s) == Some(Model())
      ensures offset == Base(t, h, s) - old(Base(track, head, sector))
      ensures old(pos == Base(track, head, sector)) ==> pos == Base(t, h, s)
    {
      SeekLandsIff(Model(), t, h, s);
      var dSector := (s - sector) * 0x200;
      var dHead := (h - head) * 0x200 * 18;
      var dTrack := (t - track) * 0x200 * 18 * 2;
      offset := dSector + dHead + dTrack;
      track, head, sector, progress := t, h, s, 0;
      if pos + offset >= 0 {
        pos := pos + offset;
      }
    }

    /** The body of a read command: seek, then one byte at a time. */
    method ReadData(t: nat, h: nat, s: nat, count: nat) returns (data: seq<byte>)
      requires Aligned(Model()) && ValidChs(t, h, s)
      requires Base(t, h, s) + count < DISK_SZ
      modifies this
      ensures image == old(image) && |image| == DISK_SZ && 0 <= Base(t, h, s)
      ensures data == image[Base(t, h, s)..Base(t, h, s) + count]
      ensures Synced(Model()) && pos == Base(t, h, s) + count
    {
      hide Advance;
      var _ := SeekTo(t, h, s);
      data := [];
      for i := 0 to count
        invariant Synced(Model()) && pos == Base(t, h, s) + i && image == old(image)
        invariant data == image[Base(t, h, s)..pos]
      {
        ReadByteSynced(Model());
        var v := ReadByteFromDrive();
        data := data + [v];
      }
    }

    /** The body of a write command. */
    method WriteData(t: nat, h: nat, s: nat, data: seq<byte>)
      requires Aligned(Model()) && ValidChs(t, h, s)
      requires Base(t, h, s) + |data| < DISK_SZ
      modifies this
      ensures image == old(image)[..Base(t, h, s)] + data + old(image)[Base(t, h, s) + |data|..]
      ensures Synced(Model()) && pos == Base(t, h, s) + |data|
    {
      hide Advance, Base, Wrapped, WriteByte, SeekOffset;
      SeekLandsIff(Model(), t, h, s);
      BaseInside(t, h, s);
      var _ := SeekTo(t, h, s);
      for i := 0 to |data|
        invariant Synced(Model()) && pos == Base(t, h, s) + i
        invariant image == old(image)[..Base(t, h, s)] + data[..i] + old(image)[Base(t, h, s) + i..]
      {
        WriteByteSynced(Model(), data[i]);
        PatchedFurther(old(image), image, Base(t, h, s), data, i);
        WriteByteToDrive(data[i]);
      }
    }
  }

  lemma BaseInside(t: int, h: int, s: int)
    requires ValidChs(t, h, s)
    ensures 0 <= Base(t, h, s) <= DISK_SZ - 0x200
  {
  }

  lemma PatchedFurther(was: seq<byte>, image: seq<byte>, b: nat, data: seq<byte>, i: nat)
    requires i < |data| && b + |data| <= |was| && image == was[..b] + data[..i] + was[b + i..]
    ensures image[b + i := data[i]] == was[..b] + data[..i + 1] + was[b + i + 1..]
  {
  }
}
