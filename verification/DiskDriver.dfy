/** The media state of one disk unit (amiga/common/fujinet_disk_driver.c) and the
    ETD generation check in front of its transfers
    (amiga/disk.device/fujinet_disk_device.c). */
module DiskDriver {
  import opened Bytes
  import opened Wrappers
  import SectorCache

  const BLOCK_SIZE := 512
  const DD_BLOCKS := 1760
  const HD_BLOCKS := 3520
  const UNIT_COUNT := 8
  const FIRST_SLOT := 1

  type Sector = SectorCache.Sector

  datatype Code = Ok | Invalid | NotFound | NotReady | Io | Other(code: byte)

  /** fn_disk_info_t; `raw` says that the image type is RAW. */
  datatype Info = Info(mounted: bool, readOnly: bool, slot: nat, raw: bool, sectorSize: nat, sectorCount: nat)

  const NO_MEDIA := Info(false, false, 0, false, 0, 0)

  /** validate_adf_geometry. */
  predicate ValidGeometry(info: Info, writable: bool, slot: nat) {
    && info.mounted && !(writable && info.readOnly) && info.slot == slot && info.raw
    && info.sectorSize == BLOCK_SIZE && info.sectorCount in {DD_BLOCKS, HD_BLOCKS}
  }

  /** A raw image of 512-byte sectors, with as many as a DD or an HD floppy has. */
  predicate IsFloppy(info: Info) {
    info.mounted && info.raw && info.sectorSize == 512 && (info.sectorCount == 1760 || info.sectorCount == 3520)
  }

  /** How the disk client answers the calls of one operation, in the order in which
      they can be made. A failed call changes neither the medium nor the info. */
  datatype Client = Client(
    init: Code, mount: Code, mounted: Info, flush: Code, info: Code, reported: Info, unmount: Code, clearChanged: Code)

  /** A change number read by TD_CHANGENUM, with the medium it was read under. */
  datatype Stamp = Stamp(count: u32, medium: nat)

  datatype IoError = Fine | DiskChanged | WriteProtected | BadAddress | BadLength | NoCommand | NotSpecified

  /** result_to_io_error for a result other than FN_OK. */
  function IoErrorOf(r: Code): (e: IoError)
    ensures e != Fine
  {
    match r
    case Invalid => BadLength
    case NotFound => DiskChanged
    case NotReady => DiskChanged
    case _ => NotSpecified
  }

  /** A transfer request; `etd` carries iotd_Count of an ETD command. */
  datatype Request = Request(offset: u32, length: u32, hasData: bool, etd: Option<u32>, hasLabel: bool)

  /** Whole blocks inside the image. */
  predicate Aligned(x: Request, bytes: nat) {
    && x.hasData && 0 < x.length && x.offset + x.length <= bytes
    && x.offset % BLOCK_SIZE == 0 && x.length % BLOCK_SIZE == 0
  }

  /** One sector call of the client. */
  datatype SectorCall = Transferred | ShortSector | SectorFailed(code: Code)

  /** What a sector call means for its request: a missing medium or a client that is not
      ready is a change of disk, and a short sector counts only for reading. */
  function SectorError(call: SectorCall, reading: bool): IoError {
    match call
    case Transferred => Fine
    case ShortSector => if reading then NotSpecified else Fine
    case SectorFailed(code) =>
      if code == Ok then Fine
      else if code == NotFound || code == NotReady then DiskChanged
      else if code == Invalid then BadLength else NotSpecified
  }

  class Driver {
    const unit: nat
    var clientReady: bool
    var mounted: bool
    var writable: bool
    var media: Info
    var changeCount: u32
    var ackPending: bool

    /** The medium behind `media`, media numbered as they are mounted; the numbers
        handed out so far; whether changeCount has ever wrapped around. */
    var medium: nat
    var mediaCount: nat
    ghost var stamps: set<Stamp>
    ghost var wrapped: bool
    /** Contents of every medium ever mounted. */
    var content: SectorCache.Disk

    function Slot(): nat { FIRST_SLOT + unit }

    ghost predicate Valid()
      reads this
    {
      && unit < UNIT_COUNT
      && (mounted ==> ValidGeometry(media, writable, Slot()) && medium < mediaCount)
      && (!mounted ==> !writable)
      && (forall s :: s in stamps ==>
            s.medium < mediaCount && (mounted && s.medium == medium ==> s.count == changeCount))
      && (!wrapped ==> forall s :: s in stamps ==>
            && s.count <= changeCount
            && (mounted && s.count == changeCount ==> s.medium == medium))
    }

    constructor (unit: nat, content: SectorCache.Disk)
      requires unit < UNIT_COUNT
      ensures Valid() && !mounted && changeCount == 0 && stamps == {} && !wrapped && this.unit == unit
    {
      this.unit, clientReady, mounted, writable, media := unit, false, false, false, NO_MEDIA;
      changeCount, ackPending := 0, false;
      medium, mediaCount, stamps, wrapped := 0, 0, {}, false;
      this.content := content;
    }

    method EnsureClient(c: Client) returns (r: Code)
      modifies `clientReady
      ensures r == (if old(clientReady) then Ok else c.init) && clientReady == (r == Ok)
    {
      if clientReady { return Ok; }
      r := c.init;
      if r == Ok { clientReady := true; }
    }

    /** clear_local_media. */
    method ClearLocalMedia()
      requires Valid()
      modifies `mounted, `writable, `media
      ensures Valid() && !mounted && !writable
    {
      mounted, writable, media := false, false, NO_MEDIA;
    }

    /** A new medium is in place: its generation is counted and acknowledged. */
    method Commit(info: Info, canWrite: bool, c: Client)
      requires Valid() && ValidGeometry(info, canWrite, Slot())
      modifies `mounted, `writable, `media, `changeCount, `ackPending, `medium, `mediaCount, `wrapped
      ensures Valid() && mounted && media == info && writable == canWrite && medium == old(mediaCount)
      ensures var next := old(changeCount) + (if old(mounted) then 2 else 1);
        changeCount == next % 0x1_0000_0000 && wrapped == (old(wrapped) || next >= 0x1_0000_0000)
      ensures ackPending == (c.clearChanged != Ok)
    {
      var step := if mounted then 2 else 1;
      medium, mediaCount := mediaCount, mediaCount + 1;
      mounted, writable, media := true, canWrite, info;
      wrapped := wrapped || changeCount + step >= 0x1_0000_0000;
      changeCount := (changeCount + step) % 0x1_0000_0000;
      ackPending := c.clearChanged != Ok;
    }

    /** fujinet_disk_mount_mode. */
    method Mount(uriEmpty: bool, canWrite: bool, c: Client) returns (r: Code)
      requires Valid()
      modifies `clientReady, `mounted, `writable, `media, `changeCount, `ackPending, `medium, `mediaCount, `wrapped
      ensures Valid()
      // Success is a new generation, strictly newer until the counter wraps.
      ensures r == Ok ==> mounted && writable == canWrite && media == c.reported && medium == old(mediaCount)
      ensures r == Ok ==> IsFloppy(media) && media.slot == unit + 1 && !(writable && media.readOnly)
      ensures r == Ok && !wrapped ==> changeCount == old(changeCount) + (if old(mounted) then 2 else 1)
      // Failure keeps the generation: the old medium stays, or none is left.
      ensures r != Ok ==> changeCount == old(changeCount) && wrapped == old(wrapped) && ackPending == old(ackPending)
      ensures r != Ok && mounted ==>
        medium == old(medium) && old(mounted) && media == old(media) && writable == old(writable)
      ensures !uriEmpty && c.init == c.mount == c.flush == c.info == Ok && IsFloppy(c.mounted) && IsFloppy(c.reported)
        && c.mounted.slot == c.reported.slot == unit + 1 && !(canWrite && (c.mounted.readOnly || c.reported.readOnly))
        ==> r == Ok
      ensures r == Ok <==>
        && !uriEmpty && (old(clientReady) || c.init == Ok) && c.mount == Ok
        && ValidGeometry(c.mounted, canWrite, Slot()) && (!canWrite || c.flush == Ok)
        && c.info == Ok && ValidGeometry(c.reported, canWrite, Slot())
    {
      if uriEmpty { return Invalid; }
      r := EnsureClient(c);
      if r != Ok { return; }
      r := c.mount;
      if r != Ok { return; }
      if !ValidGeometry(c.mounted, canWrite, Slot()) {
        ClearLocalMedia();
        return Invalid;
      }
      if canWrite && c.flush != Ok {
        ClearLocalMedia();
        return c.flush;
      }
      if c.info != Ok {
        ClearLocalMedia();
        return c.info;
      }
      if !ValidGeometry(c.reported, canWrite, Slot()) {
        ClearLocalMedia();
        return Invalid;
      }
      Commit(c.reported, canWrite, c);
      r := Ok;
    }

    /** fujinet_disk_restore_boot. */
    method RestoreBoot(c: Client) returns (r: Code)
      requires Valid()
      modifies `clientReady, `mounted, `writable, `media, `changeCount, `ackPending, `medium, `mediaCount, `wrapped
      ensures Valid()
      ensures r == Ok ==> mounted && writable == !c.mounted.readOnly && media == c.mounted && medium == old(mediaCount)
      ensures c.init == c.mount == Ok && IsFloppy(c.mounted) && c.mounted.slot == unit + 1 ==> r == Ok
      ensures r == Ok ==> IsFloppy(media) && media.slot == unit + 1
      ensures r == Ok && !wrapped ==> changeCount == old(changeCount) + (if old(mounted) then 2 else 1)
      ensures r != Ok ==> changeCount == old(changeCount) && wrapped == old(wrapped) && ackPending == old(ackPending)
      ensures r != Ok && mounted ==>
        medium == old(medium) && old(mounted) && media == old(media) && writable == old(writable)
      ensures r == Ok <==>
        (old(clientReady) || c.init == Ok) && c.mount == Ok && ValidGeometry(c.mounted, false, Slot())
    {
      r := EnsureClient(c);
      if r != Ok { return; }
      r := c.mount;
      if r != Ok { return; }
      if !ValidGeometry(c.mounted, false, Slot()) {
        ClearLocalMedia();
        return Invalid;
      }
      Commit(c.mounted, !c.mounted.readOnly, c);
    }

    /** fujinet_disk_eject. */
    method Eject(c: Client) returns (r: Code)
      requires Valid()
      modifies `clientReady, `mounted, `writable, `media, `changeCount, `ackPending, `wrapped
      ensures Valid()
      ensures r == Ok <==> old(mounted) && (old(clientReady) || c.init == Ok) && c.unmount == Ok
      ensures r == Ok ==> !mounted && (!wrapped ==> changeCount == old(changeCount) + 1)
      ensures r != Ok ==> mounted == old(mounted) && media == old(media) && writable == old(writable)
      ensures r != Ok ==> changeCount == old(changeCount) && wrapped == old(wrapped)
    {
      if !mounted { return NotReady; }
      r := EnsureClient(c);
      if r != Ok { return; }
      r := c.unmount;
      if r != Ok { return; }
      ClearLocalMedia();
      wrapped := wrapped || changeCount + 1 >= 0x1_0000_0000;
      changeCount := (changeCount + 1) % 0x1_0000_0000;
      ackPending := c.clearChanged != Ok;
    }

    /** fujinet_disk_acknowledge_change: retries a failed remote acknowledgement
        and never touches the local generation. */
    method AcknowledgeChange(c: Client) returns (r: Code)
      requires Valid()
      modifies `clientReady, `ackPending
      ensures Valid() && (r == Ok <==> !ackPending)
      ensures ackPending <==> old(ackPending) && ((!old(clientReady) && c.init != Ok) || c.clearChanged != Ok)
    {
      if !ackPending { return Ok; }
      r := EnsureClient(c);
      if r != Ok { return; }
      r := c.clearChanged;
      if r == Ok { ackPending := false; }
    }

    /** TD_CHANGENUM. */
    method ChangeNum() returns (count: u32)
      requires Valid()
      modifies `stamps
      ensures Valid() && count == changeCount
      ensures mounted ==> stamps == old(stamps) + {Stamp(count, medium)}
      ensures !mounted ==> stamps == old(stamps)
    {
      count := changeCount;
      if mounted { stamps := stamps + {Stamp(count, medium)}; }
    }

    ghost function MediaBytes(): nat
      reads this
    {
      if mounted then media.sectorCount * media.sectorSize else 0
    }

    /** A transfer that nothing forbids: whole blocks of a mounted medium, which is
        writable for a write, and no ETD count older than the present generation. */
    ghost predicate Admissible(write: bool, x: Request)
      reads this
    {
      && mounted && (write ==> writable) && Aligned(x, MediaBytes())
      && (x.etd.Some? ==> x.etd.value >= changeCount && !x.hasLabel)
    }

    /** The checks of CMD_READ/ETD_READ and CMD_WRITE/ETD_WRITE before the driver is
        called, in their order. `etd` is iotd_Count of an ETD request. */
    method Admit(write: bool, x: Request) returns (e: IoError)
      requires Valid()
      ensures e == Fine <==> Admissible(write, x)
      // An ETD request stamped under another medium is turned away.
      ensures e == Fine && x.etd.Some? && !wrapped ==>
        forall s :: s in stamps && s.count == x.etd.value ==> s.medium == medium
      // A stamp taken under the mounted medium is honoured.
      ensures x.etd.Some? && !x.hasLabel && e == DiskChanged && mounted ==>
        forall s :: s in stamps && s.count == x.etd.value ==> s.medium != medium
      // What is admitted are whole sectors inside the image.
      ensures e == Fine ==>
        && mounted && (write ==> writable) && x.hasData && x.offset % 512 == 0 && x.length % 512 == 0
        && 0 < x.length && x.offset + x.length <= 512 * media.sectorCount
      ensures mounted && (write ==> writable) && x.etd.None? ==>
        x.hasData && x.offset % 512 == 0 && x.length % 512 == 0 && 0 < x.length ==>
        x.offset + x.length <= 512 * media.sectorCount ==> e == Fine
      ensures mounted && (write ==> writable) && Aligned(x, MediaBytes()) && x.etd.Some? && x.etd.value < changeCount
        ==> e == DiskChanged
      ensures !mounted ==> e == DiskChanged
      ensures mounted && write && !writable ==> e == WriteProtected
      ensures mounted && (write ==> writable) ==> (e in {BadAddress, BadLength} <==> !Aligned(x, MediaBytes()))
      ensures e == NoCommand ==> x.hasLabel && x.etd.Some? && x.etd.value >= changeCount
    {
      if !mounted { return DiskChanged; }
      if write && !writable { return WriteProtected; }
      var bytes := media.sectorCount * media.sectorSize;
      if !x.hasData || x.offset >= bytes || x.length > bytes - x.offset { return BadAddress; }
      if x.length == 0 || x.offset % BLOCK_SIZE != 0 || x.length % BLOCK_SIZE != 0 { return BadLength; }
      if x.etd.Some? && x.etd.value < changeCount { return DiskChanged; }
      if x.etd.Some? && x.hasLabel { return NoCommand; }
      e := Fine;
    }

    /** CMD_READ / ETD_READ: block by block from the medium that is mounted. Every
        block reported as transferred holds the medium's data; success transfers
        all. `reached` says that the client was asked for a sector. */
    method Read(x: Request, buf: array<Sector>, c: Client, script: nat -> SectorCall)
      returns (e: IoError, actual: nat, reached: bool)
      requires Valid() && x.length / BLOCK_SIZE <= buf.Length
      modifies `clientReady, buf
      ensures Valid()
      ensures actual % BLOCK_SIZE == 0 && actual <= x.length && (e == Fine ==> actual == x.length > 0)
      ensures actual > 0 ==> reached
      ensures reached <==> Admissible(false, x) && (old(clientReady) || c.init == Ok)
      // The first sector call that fails or comes up short ends the transfer with its error.
      ensures reached ==> forall j :: 0 <= j < actual / BLOCK_SIZE ==> SectorError(script(j), true) == Fine
      ensures reached ==>
        e == if actual == x.length then Fine else SectorError(script(actual / BLOCK_SIZE), true)
      ensures reached && actual < x.length ==> e != Fine
      ensures !reached ==> e != Fine && actual == 0
      ensures !reached && Admissible(false, x) ==> e == SectorError(SectorFailed(c.init), true)
      ensures forall j :: 0 <= j < actual / BLOCK_SIZE ==> buf[j] == content(medium, x.offset / BLOCK_SIZE + j)
      ensures reached && x.etd.Some? && !wrapped ==>
        forall s :: s in stamps && s.count == x.etd.value ==> s.medium == medium
    {
      actual, reached := 0, false;
      e := Admit(false, x);
      if e != Fine { return; }
      var r := EnsureClient(c);
      if r != Ok { return IoErrorOf(r), 0, false; }
      var done;
      e, done := ReadBlocks(x.offset / BLOCK_SIZE, x.length / BLOCK_SIZE, buf, script);
      actual, reached := done * BLOCK_SIZE, true;
      Blocks(done);
      Blocks(x.length / BLOCK_SIZE);
    }

    /** The loop of fujinet_disk_read. */
    method ReadBlocks(lba: nat, blocks: nat, buf: array<Sector>, script: nat -> SectorCall)
      returns (e: IoError, done: nat)
      requires blocks <= buf.Length
      modifies buf
      ensures done <= blocks && (e == Fine <==> done == blocks)
      ensures forall j :: 0 <= j < done ==> SectorError(script(j), true) == Fine
      ensures done < blocks ==> e == SectorError(script(done), true)
      ensures forall j :: 0 <= j < done ==> buf[j] == content(medium, lba + j)
    {
      for j := 0 to blocks
        invariant forall i :: 0 <= i < j ==> SectorError(script(i), true) == Fine
        invariant forall i :: 0 <= i < j ==> buf[i] == content(medium, lba + i)
      {
        match script(j) {
          case Transferred =>
          case ShortSector => return NotSpecified, j;
          case SectorFailed(code) =>
            if code != Ok { return IoErrorOf(code), j; }
        }
        buf[j] := content(medium, lba + j);
      }
      e, done := Fine, blocks;
    }

    lemma Blocks(n: nat)
      ensures n * BLOCK_SIZE / BLOCK_SIZE == n && n * BLOCK_SIZE % BLOCK_SIZE == 0
    {
    }

    /** CMD_WRITE / ETD_WRITE: exactly the blocks reported as transferred are
        written, to the medium that is mounted and to no other. */
    method Write(x: Request, buf: array<Sector>, c: Client, script: nat -> SectorCall)
      returns (e: IoError, actual: nat, reached: bool)
      requires Valid() && x.length / BLOCK_SIZE <= buf.Length
      modifies `clientReady, `content
      ensures Valid()
      ensures actual % BLOCK_SIZE == 0 && actual <= x.length && (e == Fine ==> actual == x.length > 0)
      ensures actual > 0 ==> reached
      ensures reached <==> Admissible(true, x) && (old(clientReady) || c.init == Ok)
      // The first sector call that fails ends the transfer with its error.
      ensures reached ==> forall j :: 0 <= j < actual / BLOCK_SIZE ==> SectorError(script(j), false) == Fine
      ensures reached ==>
        e == if actual == x.length then Fine else SectorError(script(actual / BLOCK_SIZE), false)
      ensures reached && actual < x.length ==> e != Fine
      ensures !reached ==> e != Fine && actual == 0
      ensures !reached && Admissible(true, x) ==> e == SectorError(SectorFailed(c.init), true)
      ensures content == SectorCache.PutAll(old(content), medium, x.offset / BLOCK_SIZE, buf[..actual / BLOCK_SIZE])
      ensures reached && x.etd.Some? && !wrapped ==>
        forall s :: s in stamps && s.count == x.etd.value ==> s.medium == medium
    {
      actual, reached := 0, false;
      e := Admit(true, x);
      if e != Fine { return; }
      var r := EnsureClient(c);
      if r != Ok { return IoErrorOf(r), 0, false; }
      var done;
      e, done := WriteBlocks(x.offset / BLOCK_SIZE, x.length / BLOCK_SIZE, buf, script);
      actual, reached := done * BLOCK_SIZE, true;
      Blocks(done);
      Blocks(x.length / BLOCK_SIZE);
    }

    /** The loop of fujinet_disk_write. */
    method WriteBlocks(lba: nat, blocks: nat, buf: array<Sector>, script: nat -> SectorCall)
      returns (e: IoError, done: nat)
      requires blocks <= buf.Length
      modifies `content
      ensures done <= blocks && (e == Fine <==> done == blocks)
      ensures forall j :: 0 <= j < done ==> SectorError(script(j), false) == Fine
      ensures done < blocks ==> e == SectorError(script(done), false)
      ensures content == SectorCache.PutAll(old(content), medium, lba, buf[..done])
    {
      for j := 0 to blocks
        invariant forall i :: 0 <= i < j ==> SectorError(script(i), false) == Fine
        invariant content == SectorCache.PutAll(old(content), medium, lba, buf[..j])
      {
        match script(j) {
          case Transferred =>
          case ShortSector =>
          case SectorFailed(code) =>
            if code != Ok { return IoErrorOf(code), j; }
        }
        assert buf[..j + 1][..j] == buf[..j];
        content := SectorCache.Put(content, medium, lba + j, buf[j]);
      }
      e, done := Fine, blocks;
    }
  }
}
