/** The MS-DOS driver's sector cache, batched read loop and write loop
    (msdos/src/driver/commands.c). */
module SectorCache {
  import opened Bytes
  import opened Wrappers

  const CACHE_SECTORS := 40
  const MAX_BATCH_SECTORS := 16
  const MAX_UNITS := 8

  const SECTOR_SIZE := 512

  type Sector = s: seq<byte> | |s| == SECTOR_SIZE witness seq(SECTOR_SIZE, _ => 0)

  const BLANK: Sector := seq(SECTOR_SIZE, _ => 0)

  /** The sector count in the BIOS parameter block of a boot sector: the 16-bit field,
      or the 32-bit one if that is zero. */
  function SectorCount(boot: Sector): u32 {
    var small := Le16(boot[19], boot[20]);
    if small != 0 then small else Le32(boot[32], boot[33], boot[34], boot[35])
  }

  /** A boot sector of an image of n sectors: small counts are in the 16-bit field, others
      in the 32-bit one, with the small field zero. */
  predicate Describes(boot: Sector, n: u32) {
    if boot[19] == 0 && boot[20] == 0 then boot[32..36] == PutLe32(n)
    else n < 0x1_0000 && boot[19] == n % 0x100 && boot[20] == n / 0x100
  }

  /** Round trip: images of any size are read back with their full count. */
  lemma CountIsRead(boot: Sector, n: u32)
    requires Describes(boot, n)
    ensures SectorCount(boot) == n
  {
    if boot[19] == 0 && boot[20] == 0 {
      var field := boot[32..36];
      assert boot[32] == field[0] && boot[33] == field[1] && boot[34] == field[2] && boot[35] == field[3];
    }
  }

  /** Until a BPB has been built every unit counts as a 360 KB disk. */
  const INITIAL_SECTORS: u32 := 0x2d0

  /** The remote images: content of a sector of a service slot. */
  type Disk = (nat, nat) -> Sector

  datatype Line = Line(valid: bool, unit: byte, lba: u32, data: Sector)

  // ------------------------------------------------- cache lines as a value

  predicate Holds(line: Line, unit: byte, lba: u32) { line.valid && line.unit == unit && line.lba == lba }

  /** Lowest index of a copy, or the number of lines. */
  function Find(c: seq<Line>, unit: byte, lba: u32): (k: nat)
    ensures k <= |c| && (k < |c| ==> Holds(c[k], unit, lba))
    ensures forall i :: 0 <= i < k ==> !Holds(c[i], unit, lba)
  {
    if c == [] || Holds(c[0], unit, lba) then 0 else 1 + Find(c[1..], unit, lba)
  }

  /** cache_update_or_invalidate with data: only the lowest copy is refreshed. */
  function Refresh(c: seq<Line>, unit: byte, lba: u32, data: Sector): (r: seq<Line>)
    ensures |r| == |c|
  {
    var k := Find(c, unit, lba);
    if k < |c| then c[k := c[k].(data := data)] else c
  }

  function Put(disk: Disk, slot: nat, lba: nat, data: Sector): Disk {
    (s, l) => if s == slot && l == lba then data else disk(s, l)
  }

  /** What a line ought to hold. */
  function Truth(line: Line, slots: seq<byte>, disk: Disk): Sector {
    if line.unit < |slots| then disk(slots[line.unit], line.lba) else BLANK
  }

  /** Every cached copy equals the disk. */
  ghost predicate Agrees(c: seq<Line>, slots: seq<byte>, disk: Disk) {
    forall i :: 0 <= i < |c| && c[i].valid ==> c[i].unit < |slots| && c[i].data == Truth(c[i], slots, disk)
  }

  /** At most one copy of a sector per unit. */
  ghost predicate Unique(c: seq<Line>) {
    forall i, j :: 0 <= i < j < |c| && c[i].valid && c[j].valid ==> !(c[i].unit == c[j].unit && c[i].lba == c[j].lba)
  }

  /** No other unit shares the unit's slot. */
  predicate Unshared(slots: seq<byte>, unit: byte) {
    unit < |slots| && forall v :: 0 <= v < |slots| && v != unit ==> slots[v] != slots[unit]
  }

  /** A line that caches this sector of this slot, through whatever unit. */
  predicate Caches(line: Line, slots: seq<byte>, slot: nat, lba: nat) {
    line.valid && line.unit < |slots| && slots[line.unit] as int == slot && line.lba == lba
  }

  /** Storing a sector just read keeps agreement, duplicates or not. */
  lemma StoreKeepsAgreement(c: seq<Line>, k: nat, line: Line, slots: seq<byte>, disk: Disk)
    requires k < |c| && Agrees(c, slots, disk) && line.unit < |slots| && line.data == Truth(line, slots, disk)
    ensures Agrees(c[k := line], slots, disk)
  {
  }

  lemma StoreKeepsUnique(c: seq<Line>, k: nat, line: Line)
    requires k < |c| && Unique(c) && Find(c, line.unit, line.lba) == |c|
    ensures Unique(c[k := line])
  {
  }

  /** A sector written to the disk and refreshed in the cache: agreement survives
      exactly if every other copy, of this unit or of another one mapped to the
      same slot, already held the new data. */
  lemma WriteKeepsAgreementIff(c: seq<Line>, slots: seq<byte>, disk: Disk, unit: byte, lba: u32, data: Sector)
    requires Agrees(c, slots, disk) && unit < |slots|
    ensures Agrees(Refresh(c, unit, lba, data), slots, Put(disk, slots[unit], lba, data))
      <==> forall i :: 0 <= i < |c| && i != Find(c, unit, lba) && Caches(c[i], slots, slots[unit], lba) ==>
             c[i].data == data
  {
    var r, d := Refresh(c, unit, lba, data), Put(disk, slots[unit], lba, data);
    var k := Find(c, unit, lba);
    forall i | 0 <= i < |c| && c[i].valid
      ensures Truth(r[i], slots, d) == if Caches(c[i], slots, slots[unit], lba) then data else c[i].data
      ensures r[i].valid && r[i].data == if i == k then data else c[i].data
    {
    }
  }

  /** The same for a write that reached the disk although it was reported failed:
      nothing is refreshed, so every copy must already have held the new data. */
  lemma FailedWriteKeepsAgreementIff(c: seq<Line>, slots: seq<byte>, disk: Disk, slot: nat, lba: nat, data: Sector)
    requires Agrees(c, slots, disk)
    ensures Agrees(c, slots, Put(disk, slot, lba, data))
      <==> forall i :: 0 <= i < |c| && Caches(c[i], slots, slot, lba) ==> c[i].data == data
  {
    var d := Put(disk, slot, lba, data);
    forall i | 0 <= i < |c| && c[i].valid
      ensures Truth(c[i], slots, d) == if Caches(c[i], slots, slot, lba) then data else c[i].data
    {
    }
  }

  /** Without duplicates and other units on the slot the lowest copy is the only one. */
  lemma OnlyCopy(c: seq<Line>, slots: seq<byte>, unit: byte, lba: u32, i: nat)
    requires Unique(c) && Unshared(slots, unit)
    requires i < |c| && Caches(c[i], slots, slots[unit], lba)
    ensures i == Find(c, unit, lba)
  {
    assert c[i].unit == unit;
  }

  // --------------------------------------------------------- whole batches

  /** Consecutive sectors written from lba on, the first one first. */
  function PutAll(disk: Disk, slot: nat, lba: nat, data: seq<Sector>): Disk {
    if data == [] then disk
    else var n := |data| - 1; Put(PutAll(disk, slot, lba, data[..n]), slot, lba + n, data[n])
  }

  function RefreshAll(c: seq<Line>, unit: byte, lba: nat, data: seq<Sector>): (r: seq<Line>)
    requires lba + |data| < 0x1_0000_0000
    ensures |r| == |c|
  {
    if data == [] then c
    else var n := |data| - 1; Refresh(RefreshAll(c, unit, lba, data[..n]), unit, lba + n, data[n])
  }

  /** Reading back what was written, and nothing else changed. */
  lemma {:induction false} PutAllReads(disk: Disk, slot: nat, lba: nat, data: seq<Sector>, s: nat, l: nat)
    ensures PutAll(disk, slot, lba, data)(s, l)
      == if s == slot && lba <= l < lba + |data| then data[l - lba] else disk(s, l)
  {
    if data != [] { PutAllReads(disk, slot, lba, data[..|data| - 1], s, l); }
  }

  lemma {:induction false} PutAllConcat(disk: Disk, slot: nat, lba: nat, a: seq<Sector>, b: seq<Sector>)
    ensures PutAll(disk, slot, lba, a + b) == PutAll(PutAll(disk, slot, lba, a), slot, lba + |a|, b)
  {
    if b == [] {
      assert a + b == a;
    } else {
      assert (a + b)[..|a + b| - 1] == a + b[..|b| - 1];
      PutAllConcat(disk, slot, lba, a, b[..|b| - 1]);
    }
  }

  lemma {:induction false} RefreshAllConcat(c: seq<Line>, unit: byte, lba: nat, a: seq<Sector>, b: seq<Sector>)
    requires lba + |a| + |b| < 0x1_0000_0000
    ensures RefreshAll(c, unit, lba, a + b) == RefreshAll(RefreshAll(c, unit, lba, a), unit, lba + |a|, b)
  {
    if b == [] {
      assert a + b == a;
    } else {
      assert (a + b)[..|a + b| - 1] == a + b[..|b| - 1];
      RefreshAllConcat(c, unit, lba, a, b[..|b| - 1]);
    }
  }

  /** The only line that caches the sector, through any unit, is the lowest copy
      of this unit. */
  ghost predicate Sole(c: seq<Line>, slots: seq<byte>, unit: byte, lba: u32)
    requires unit < |slots|
  {
    forall i :: 0 <= i < |c| && Caches(c[i], slots, slots[unit], lba) ==> i == Find(c, unit, lba)
  }

  ghost predicate AllSole(c: seq<Line>, slots: seq<byte>, unit: byte, lba: nat, n: nat) {
    unit < |slots| && lba + n < 0x1_0000_0000 && forall l :: lba <= l < lba + n ==> Sole(c, slots, unit, l)
  }

  /** Refreshing keeps which sector is cached where. */
  ghost predicate SameKeys(c: seq<Line>, r: seq<Line>) {
    |r| == |c|
    && forall i :: 0 <= i < |c| ==> r[i].valid == c[i].valid && r[i].unit == c[i].unit && r[i].lba == c[i].lba
  }

  lemma {:induction false} RefreshAllSameKeys(c: seq<Line>, unit: byte, lba: nat, data: seq<Sector>)
    requires lba + |data| < 0x1_0000_0000
    ensures SameKeys(c, RefreshAll(c, unit, lba, data))
  {
    if data != [] { RefreshAllSameKeys(c, unit, lba, data[..|data| - 1]); }
  }

  lemma SameKeysUnique(c: seq<Line>, r: seq<Line>)
    requires SameKeys(c, r) && Unique(c)
    ensures Unique(r)
  {
  }

  lemma SameKeysSole(c: seq<Line>, r: seq<Line>, slots: seq<byte>, unit: byte, lba: u32)
    requires SameKeys(c, r) && unit < |slots| && Sole(c, slots, unit, lba)
    ensures Sole(r, slots, unit, lba)
  {
    var k := Find(c, unit, lba);
    assert forall i :: 0 <= i < |c| ==> Holds(r[i], unit, lba) == Holds(c[i], unit, lba);
    assert Find(r, unit, lba) == k;
    assert forall i :: 0 <= i < |c| ==> Caches(r[i], slots, slots[unit], lba) == Caches(c[i], slots, slots[unit], lba);
  }

  /** Writing a run of sectors, each with at most one cached copy, keeps the cache
      in agreement with the disk. */
  lemma {:induction false} WriteAllKeepsAgreement(
    c: seq<Line>, slots: seq<byte>, disk: Disk, unit: byte, lba: nat, data: seq<Sector>)
    requires unit < |slots| && lba + |data| < 0x1_0000_0000 && Agrees(c, slots, disk)
    ensures AllSole(c, slots, unit, lba, |data|) ==>
      Agrees(RefreshAll(c, unit, lba, data), slots, PutAll(disk, slots[unit], lba, data))
  {
    if data != [] && AllSole(c, slots, unit, lba, |data|) {
      var n := |data| - 1;
      WriteAllKeepsAgreement(c, slots, disk, unit, lba, data[..n]);
      var c' := RefreshAll(c, unit, lba, data[..n]);
      RefreshAllSameKeys(c, unit, lba, data[..n]);
      SameKeysSole(c, c', slots, unit, lba + n);
      WriteKeepsAgreementIff(c', slots, PutAll(disk, slots[unit], lba, data[..n]), unit, lba + n, data[n]);
    }
  }

  /** In a duplicate-free cache every sector of a unit with a slot of its own is sole. */
  lemma UniqueIsSole(c: seq<Line>, slots: seq<byte>, unit: byte, lba: nat, n: nat)
    requires Unique(c) && Unshared(slots, unit) && lba + n < 0x1_0000_0000
    ensures AllSole(c, slots, unit, lba, n)
  {
    forall l, i | lba <= l < lba + n && 0 <= i < |c| && Caches(c[i], slots, slots[unit], l)
      ensures i == Find(c, unit, l)
    {
      OnlyCopy(c, slots, unit, l, i);
    }
  }

  /** Two runs of written and refreshed sectors, one after the other. */
  lemma JoinWrites(d: Disk, c: seq<Line>, slot: nat, unit: byte, lba: nat, a: seq<Sector>, b: seq<Sector>)
    requires lba + |a| + |b| < 0x1_0000_0000
    ensures PutAll(d, slot, lba, a + b) == PutAll(PutAll(d, slot, lba, a), slot, lba + |a|, b)
    ensures RefreshAll(c, unit, lba, a + b) == RefreshAll(RefreshAll(c, unit, lba, a), unit, lba + |a|, b)
  {
    PutAllConcat(d, slot, lba, a, b);
    RefreshAllConcat(c, unit, lba, a, b);
  }

  /** No line caches any of these sectors. */
  ghost predicate Uncached(c: seq<Line>, slots: seq<byte>, slot: nat, lba: nat, n: nat) {
    forall i, l :: 0 <= i < |c| && lba <= l < lba + n ==> !Caches(c[i], slots, slot, l)
  }

  /** Sectors that reach the disk without the cache knowing do no harm if none of them
      is cached. */
  lemma {:induction false} LostWriteKeepsAgreement(
    c: seq<Line>, slots: seq<byte>, disk: Disk, slot: nat, lba: nat, data: seq<Sector>)
    requires Agrees(c, slots, disk) && Uncached(c, slots, slot, lba, |data|)
    ensures Agrees(c, slots, PutAll(disk, slot, lba, data))
  {
    if data != [] {
      var n := |data| - 1;
      LostWriteKeepsAgreement(c, slots, disk, slot, lba, data[..n]);
      FailedWriteKeepsAgreementIff(c, slots, PutAll(disk, slot, lba, data[..n]), slot, lba + n, data[n]);
    }
  }

  lemma SameKeysUncached(c: seq<Line>, r: seq<Line>, slots: seq<byte>, slot: nat, lba: nat, n: nat)
    requires SameKeys(c, r) && Uncached(c, slots, slot, lba, n)
    ensures Uncached(r, slots, slot, lba, n)
  {
    forall i, l | 0 <= i < |r| && lba <= l < lba + n ensures !Caches(r[i], slots, slot, l) {
      assert !Caches(c[i], slots, slot, l);
    }
  }

  /** The round-robin position after n stores, n up to the number of lines. */
  function Position(next: nat, n: nat): int {
    if next + n >= CACHE_SECTORS then next + n - CACHE_SECTORS else next + n
  }

  /** How many stores after the position `next` a line is reached. */
  function Turn(next: nat, p: nat): nat
    requires next < CACHE_SECTORS
  {
    if p >= next then p - next else p + CACHE_SECTORS - next
  }

  /** c became r when a batch was stored sector by sector from the round-robin position
      on; all other lines are as they were. */
  ghost predicate Stored(c: seq<Line>, next: nat, unit: byte, lba: nat, data: seq<Sector>, r: seq<Line>)
    requires next < CACHE_SECTORS && lba + |data| < 0x1_0000_0000
  {
    && |r| == |c| == CACHE_SECTORS
    && forall p {:trigger r[p]} :: 0 <= p < CACHE_SECTORS ==>
         r[p] == if Turn(next, p) < |data| then Line(true, unit, lba + Turn(next, p), data[Turn(next, p)]) else c[p]
  }

  lemma StoredOne(c: seq<Line>, next: nat, unit: byte, lba: nat, data: seq<Sector>, r: seq<Line>)
    requires next < CACHE_SECTORS && |data| == 1 && lba + 1 < 0x1_0000_0000 && Stored(c, next, unit, lba, data, r)
    ensures r == c[next := Line(true, unit, lba, data[0])]
  {
  }

  lemma OneKeepsUnique(c: seq<Line>, next: nat, unit: byte, lba: u32, data: seq<Sector>, r: seq<Line>)
    requires next < CACHE_SECTORS && |data| == 1 && lba + 1 < 0x1_0000_0000 && Stored(c, next, unit, lba, data, r)
    ensures Unique(c) && Find(c, unit, lba) == CACHE_SECTORS ==> Unique(r)
  {
    StoredOne(c, next, unit, lba, data, r);
    if Unique(c) && Find(c, unit, lba) == CACHE_SECTORS { StoreKeepsUnique(c, next, Line(true, unit, lba, data[0])); }
  }

  lemma StoredMore(c: seq<Line>, next: nat, unit: byte, lba: nat, data: seq<Sector>, r: seq<Line>, a: Sector)
    requires next < CACHE_SECTORS && |data| < CACHE_SECTORS && lba + |data| + 1 < 0x1_0000_0000
    requires Stored(c, next, unit, lba, data, r)
    ensures Stored(c, next, unit, lba, data + [a], r[Position(next, |data|) := Line(true, unit, lba + |data|, a)])
  {
  }

  /** The unit map after a run of requests. */
  function MapAfter(slots: seq<byte>, rs: seq<Request>): (r: seq<byte>)
    ensures |r| == |slots|
  {
    if rs == [] then slots
    else
      var before := MapAfter(slots, rs[..|rs| - 1]);
      match rs[|rs| - 1]
      case Map(unit, slot) => if unit < |slots| && slot < MAX_UNITS then before[unit := slot] else before
      case _ => before
  }

  /** Every write of the run goes to a unit with a slot of its own, and its failed calls
      leave the disk alone. */
  ghost predicate GoodWrites(slots: seq<byte>, rs: seq<Request>) {
    forall i :: 0 <= i < |rs| && rs[i].Write? ==>
      Clean(rs[i].writes) && (rs[i].unit < |slots| ==> Unshared(MapAfter(slots, rs[..i]), rs[i].unit))
  }

  // ------------------------------------------------------------- the driver

  /** Link errors that can trigger a downshift, and all others. */
  datatype LinkError = ShortFrame | LengthMismatch | ChecksumError | OtherError

  /** One nio_disk_read_sectors call: all data arrived, or it failed and left
      something in the buffer. */
  datatype ReadCall = Complete | Failed(error: LinkError, junk: seq<Sector>)

  /** The frame was short, had a wrong length or a wrong checksum: only these three errors
      may lower the batch limit. */
  ghost predicate Damaged(call: ReadCall) { call.Failed? && call.error != OtherError }

  /** Every failing call of the script is of this kind. */
  ghost predicate OnlyDamage(script: nat -> ReadCall) { forall i: nat :: script(i).Failed? ==> Damaged(script(i)) }

  ghost predicate NoDamage(script: nat -> ReadCall) { forall i: nat :: !Damaged(script(i)) }

  /** The first m calls deliver damaged frames, all others complete. */
  ghost predicate DamagedFirst(script: nat -> ReadCall, m: nat) {
    (forall i: nat :: i < m ==> Damaged(script(i))) && forall i: nat :: i >= m ==> script(i) == Complete
  }

  lemma SameCount(script: nat -> ReadCall, m: nat, n: nat)
    requires DamagedFirst(script, m) && DamagedFirst(script, n)
    ensures m == n
  {
    assert !(script(m) == Complete && Damaged(script(m)));
    assert !(script(n) == Complete && Damaged(script(n)));
  }

  /** The batch limit after k downshifts of a read that asks for w sectors at first. */
  function Halved(batch: nat, w: nat, k: nat): nat { if k == 0 then batch else Halves(w, k) }

  function Halves(w: nat, k: nat): nat { if k == 0 then w else Halves(w, k - 1) / 2 }

  lemma {:induction false} HalvesIsDiv(w: nat, k: nat)
    ensures Halves(w, k) == w / Pow2(k)
  {
    if k > 0 {
      HalvesIsDiv(w, k - 1);
      HalfOfDiv(w, Pow2(k - 1));
    }
  }

  lemma HalfOfDiv(w: nat, p: nat)
    requires p > 0
    ensures w / p / 2 == w / (2 * p)
  {
    var q, r := w / p, w % p;
    assert w == p * q + r;
    assert p * q == (2 * p) * (q / 2) + p * (q % 2);
    if q % 2 == 0 { assert p * (q % 2) == 0; } else { assert p * (q % 2) == p; }
    DivModUnique(w, 2 * p, q / 2, p * (q % 2) + r);
  }

  /** Fewer than log w halvings leave more than one sector. */
  lemma {:induction false} HalvesEnough(w: nat, k: nat, m: nat)
    requires k <= m && Pow2(m) <= w
    ensures Pow2(m - k) <= Halves(w, k) <= w
  {
    if k > 0 {
      HalvesEnough(w, k - 1, m);
      assert Pow2(m - (k - 1)) == 2 * Pow2(m - k);
    }
  }

  /** One nio_disk_write_sectors call: written, or reported failed after the first
      `applied` sectors had reached the disk. */
  datatype WriteCall = Written | Lost(applied: nat)

  datatype Status = Done(count: nat) | UnknownUnit | NotReady | WriteProtect | NotFound | GeneralFail | ReadFault
                  | BadRequestLength

  datatype Fetch = Fetched | Downshifted | Unreadable

  /** Failed writes leave the disk unchanged. */
  ghost predicate Clean(script: nat -> WriteCall) { forall i :: script(i) == Written || script(i) == Lost(0) }

  datatype Request =
    | Read(unit: byte, start: u32, count: u16, fetches: nat -> ReadCall)
    | Write(unit: byte, start: u32, count: u16, ready: bool, readOnly: bool, writes: nat -> WriteCall)
    | Bpb(unit: byte, mediaGone: bool, call: ReadCall)
    | Map(unit: byte, slot: byte)

  class DosDriver {
    const lines: array<Line>
    var next: nat
    var slots: seq<byte>
    var sectorMax: seq<u32>
    var batch: nat
    var retries: nat
    var autoDownshift: bool
    /** The remote images. */
    var disk: Disk

    ghost predicate Valid()
      reads this
    {
      && lines.Length == CACHE_SECTORS && next < CACHE_SECTORS
      && |slots| == MAX_UNITS && |sectorMax| == MAX_UNITS
      && 1 <= batch <= MAX_BATCH_SECTORS
    }

    ghost predicate Coherent()
      requires Valid()
      reads this, lines
    {
      Agrees(lines[..], slots, disk)
    }

    constructor (disk: Disk, batch: nat)
      requires 1 <= batch <= MAX_BATCH_SECTORS
      ensures Valid() && Coherent() && Unique(lines[..])
      ensures forall unit: byte :: unit < MAX_UNITS ==> Unshared(slots, unit)
      ensures this.disk == disk && this.batch == batch && fresh(lines) && next == 0
      ensures forall i :: 0 <= i < CACHE_SECTORS ==> !lines[i].valid
      ensures forall unit :: 0 <= unit < MAX_UNITS ==> sectorMax[unit] == INITIAL_SECTORS
    {
      lines := new Line[CACHE_SECTORS](_ => Line(false, 0, 0, BLANK));
      next, slots, sectorMax := 0, [0, 1, 2, 3, 4, 5, 6, 7], seq(MAX_UNITS, _ => INITIAL_SECTORS);
      this.batch, retries, autoDownshift := batch, 2, true;
      this.disk := disk;
    }

    method CacheFind(unit: byte, lba: u32) returns (k: nat)
      requires Valid()
      ensures k == Find(lines[..], unit, lba)
    {
      k := 0;
      while k < CACHE_SECTORS
        invariant k <= CACHE_SECTORS && forall i :: 0 <= i < k ==> !Holds(lines[i], unit, lba)
      {
        if lines[k].valid && lines[k].unit == unit && lines[k].lba == lba { return; }
        k := k + 1;
      }
    }

    method CacheStore(unit: byte, lba: u32, data: Sector)
      requires Valid()
      modifies lines, this`next
      ensures Valid() && next == (old(next) + 1) % CACHE_SECTORS
      ensures lines[..] == old(lines[..])[old(next) := Line(true, unit, lba, data)]
    {
      lines[next] := Line(true, unit, lba, data);
      next := (next + 1) % CACHE_SECTORS;
    }

    method CacheRefresh(unit: byte, lba: u32, data: Sector)
      requires Valid()
      modifies lines
      ensures lines[..] == Refresh(old(lines[..]), unit, lba, data)
    {
      var k := CacheFind(unit, lba);
      if k < CACHE_SECTORS { lines[k] := lines[k].(data := data); }
    }

    method CacheInvalidateUnit(unit: byte)
      requires Valid()
      modifies lines
      ensures forall i :: 0 <= i < CACHE_SECTORS ==>
        lines[i] == if old(lines[i]).unit == unit then old(lines[i]).(valid := false) else old(lines[i])
    {
      for k := 0 to CACHE_SECTORS
        invariant forall i :: 0 <= i < CACHE_SECTORS ==>
          lines[i] == if i < k && old(lines[i]).unit == unit then old(lines[i]).(valid := false) else old(lines[i])
      {
        if lines[k].unit == unit { lines[k] := lines[k].(valid := false); }
      }
    }

    /** nio_disk_read_sectors into the buffer. */
    method Receive(slot: nat, sector: nat, n: nat, buf: array<Sector>, at: nat, call: ReadCall)
      requires at + n <= buf.Length
      modifies buf
      ensures buf[..at] == old(buf[..at]) && buf[at + n..] == old(buf[at + n..])
      ensures call == Complete ==> forall j :: at <= j < at + n ==> buf[j] == disk(slot, sector + j - at)
    {
      for i := 0 to n
        invariant buf[..at] == old(buf[..at]) && buf[at + n..] == old(buf[at + n..])
        invariant call == Complete ==> forall j :: at <= j < at + i ==> buf[j] == disk(slot, sector + j - at)
      {
        if call == Complete { buf[at + i] := disk(slot, sector + i); }
        else if i < |call.junk| { buf[at + i] := call.junk[i]; }
      }
    }

    /** A failure of a batch that makes the driver lower its batch limit. */
    predicate Shrinks(call: ReadCall, n: nat)
      reads this`autoDownshift
    {
      call.Failed? && autoDownshift && n > 1 && call.error in {ShortFrame, LengthMismatch, ChecksumError}
    }

    /** One of the next retries + 1 calls completes. */
    ghost predicate Recovers(script: nat -> ReadCall, k: nat)
      reads this`retries
    {
      exists j: nat :: k <= j <= k + retries && script(j) == Complete
    }

    /** The attempt loop of Input_cmd for one batch: retried until it completes, up
        to the retry limit, unless it is to be shrunk, which a damaged frame of more than
        one sector is. */
    method FetchBatch(unit: byte, sector: nat, n: nat, buf: array<Sector>, at: nat, script: nat -> ReadCall, k: nat)
      returns (r: Fetch, k': nat)
      requires Valid() && unit < MAX_UNITS && 1 <= n <= batch && at + n <= buf.Length
      modifies buf, this`batch
      ensures Valid() && buf[..at] == old(buf[..at])
      ensures r == Fetched ==> forall j :: at <= j < at + n ==> buf[j] == disk(slots[unit], sector + j - at)
      ensures k < k' <= k + retries + 1 && (r == Fetched <==> script(k' - 1) == Complete)
      ensures forall i :: k <= i < k' - 1 ==> script(i).Failed? && (autoDownshift && n > 1 ==> !Damaged(script(i)))
      ensures r == Downshifted <==> autoDownshift && n > 1 && Damaged(script(k' - 1))
      ensures r == Unreadable ==> k' == k + retries + 1
      ensures batch == if r == Downshifted then n / 2 else old(batch)
    {
      k' := k;
      var attempt := 0;
      while attempt <= retries
        invariant Valid() && batch == old(batch) && buf[..at] == old(buf[..at])
        invariant 0 <= attempt <= retries + 1 && k' == k + attempt
        invariant forall i :: k <= i < k' ==> script(i).Failed? && (autoDownshift && n > 1 ==> !Damaged(script(i)))
        decreases retries + 1 - attempt
      {
        var call := script(k');
        k' := k' + 1;
        Receive(slots[unit], sector, n, buf, at, call);
        if call == Complete { return Fetched, k'; }
        if Shrinks(call, n) {
          var limit := n / 2;
          if batch > limit { batch := limit; }
          return Downshifted, k';
        }
        attempt := attempt + 1;
      }
      r := Unreadable;
    }

    /** A whole batch goes into the cache, whether or not parts of it are there. */
    method FillCache(unit: byte, sector: nat, n: nat, buf: array<Sector>, at: nat)
      requires Valid() && Coherent() && unit < MAX_UNITS && at + n <= buf.Length && sector + n < 0x1_0000_0000
      requires n <= CACHE_SECTORS
      requires forall j :: at <= j < at + n ==> buf[j] == disk(slots[unit], sector + j - at)
      modifies lines, this`next
      ensures Valid() && Coherent()
      ensures Stored(old(lines[..]), old(next), unit, sector, buf[at..at + n], lines[..])
      ensures next == Position(old(next), n)
      ensures n == 1 && old(Unique(lines[..])) && old(Find(lines[..], unit, sector)) == CACHE_SECTORS ==>
        Unique(lines[..])
    {
      for i := 0 to n
        invariant Valid() && Coherent() && next == Position(old(next), i)
        invariant Stored(old(lines[..]), old(next), unit, sector, buf[at..at + i], lines[..])
      {
        assert buf[at..at + i + 1] == buf[at..at + i] + [buf[at + i]];
        StoreNext(unit, sector + i, buf[at + i], sector, buf[at..at + i], old(lines[..]), old(next));
      }
      if n == 1 { OneKeepsUnique(old(lines[..]), old(next), unit, sector, buf[at..at + 1], lines[..]); }
    }

    /** One sector more of a batch of which `stored` has gone into the cache. */
    method StoreNext(unit: byte, lba: u32, data: Sector, ghost sector: nat, ghost stored: seq<Sector>,
                     ghost c: seq<Line>, ghost p: nat)
      requires Valid() && Coherent() && unit < MAX_UNITS && lba == sector + |stored| && lba + 1 < 0x1_0000_0000
      requires data == disk(slots[unit], lba) && |stored| < CACHE_SECTORS && p < CACHE_SECTORS
      requires Stored(c, p, unit, sector, stored, lines[..]) && next == Position(p, |stored|)
      modifies lines, this`next
      ensures Valid() && Coherent() && next == Position(p, |stored| + 1)
      ensures Stored(c, p, unit, sector, stored + [data], lines[..])
    {
      StoredMore(c, p, unit, sector, stored, lines[..], data);
      StoreRead(unit, lba, data);
    }

    /** A sector just read goes into the cache. */
    method StoreRead(unit: byte, lba: u32, data: Sector)
      requires Valid() && Coherent() && unit < MAX_UNITS && data == disk(slots[unit], lba)
      modifies lines, this`next
      ensures Valid() && Coherent() && next == (old(next) + 1) % CACHE_SECTORS
      ensures lines[..] == old(lines[..])[old(next) := Line(true, unit, lba, data)]
    {
      StoreKeepsAgreement(lines[..], next, Line(true, unit, lba, data), slots, disk);
      CacheStore(unit, lba, data);
    }

    /** The read lies inside the image, and its first sector is not cached. */
    ghost predicate Missing(unit: byte, start: nat, count: nat)
      requires Valid() && unit < MAX_UNITS
      reads this, lines
    {
      0 < count && start + count <= sectorMax[unit] && Find(lines[..], unit, start) == CACHE_SECTORS
    }

    /** The same, and it fits one batch. */
    ghost predicate WholeBatch(unit: byte, start: nat, count: nat)
      requires Valid() && unit < MAX_UNITS
      reads this, lines
    {
      count <= batch && Missing(unit, start, count)
    }

    /** One round of Input_cmd: a cached sector, or a batch fetched and cached, or
        nothing delivered and the batch limit lowered, or a read that failed for
        good. */
    method ReadSome(unit: byte, sector: nat, limit: nat, buf: array<Sector>, at: nat, script: nat -> ReadCall, k: nat)
      returns (n: nat, ok: bool, k': nat)
      requires Valid() && Coherent() && unit < MAX_UNITS && sector < sectorMax[unit]
      requires 0 < limit && at + limit <= buf.Length
      modifies buf, lines, this`next, this`batch
      ensures Valid() && Coherent() && n <= limit && sector + n <= sectorMax[unit] && buf[..at] == old(buf[..at])
      ensures forall j :: at <= j < at + n ==> buf[j] == disk(slots[unit], sector + j - at)
      ensures k <= k' && batch <= old(batch) && (ok && n == 0 ==> batch < old(batch))
      ensures Recovers(script, k) ==> ok
      ensures old(WholeBatch(unit, sector, limit)) && script(k) == Complete ==>
          && n == limit && Stored(old(lines[..]), old(next), unit, sector, buf[at..at + n], lines[..])
          && next == Position(old(next), n) && batch == old(batch)
      ensures old(batch) == 1 && old(Unique(lines[..])) ==> Unique(lines[..])
      // A damaged frame of several sectors halves the batch, and only that does.
      ensures autoDownshift && old(Missing(unit, sector, limit)) && Damaged(script(k)) && Min(limit, old(batch)) > 1 ==>
        n == 0 && ok && k' == k + 1 && batch == Min(limit, old(batch)) / 2 && lines[..] == old(lines[..])
      ensures (forall i: nat :: k <= i ==> script(i) == Complete) ==> ok && n > 0 && batch == old(batch)
      ensures !autoDownshift || NoDamage(script) ==> batch == old(batch)
      ensures !ok && autoDownshift && OnlyDamage(script) && sector + limit <= sectorMax[unit] ==>
        batch == 1 || limit == 1
    {
      n, ok, k' := 0, true, k;
      var cached := CacheFind(unit, sector);
      if cached < CACHE_SECTORS {
        buf[at] := lines[cached].data;
        n := 1;
        return;
      }
      var fetch := Min(Min(limit, batch), sectorMax[unit] - sector);
      var r;
      r, k' := FetchAndStore(unit, sector, fetch, buf, at, script, k);
      ok := r != Unreadable;
      if r == Fetched { n := fetch; }
    }

    /** A batch is fetched and, if it has arrived, cached. */
    method FetchAndStore(unit: byte, sector: nat, n: nat, buf: array<Sector>, at: nat, script: nat -> ReadCall, k: nat)
      returns (r: Fetch, k': nat)
      requires Valid() && Coherent() && unit < MAX_UNITS && 1 <= n <= batch && at + n <= buf.Length
      requires sector + n <= sectorMax[unit] && Find(lines[..], unit, sector) == CACHE_SECTORS
      modifies buf, lines, this`next, this`batch
      ensures Valid() && Coherent() && buf[..at] == old(buf[..at])
      ensures r == Fetched ==> forall j :: at <= j < at + n ==> buf[j] == disk(slots[unit], sector + j - at)
      ensures k < k' && batch == if r == Downshifted then n / 2 else old(batch)
      ensures r == Downshifted ==> autoDownshift && n > 1 && !NoDamage(script)
      ensures autoDownshift && n > 1 && Damaged(script(k)) ==> r == Downshifted && k' == k + 1
      ensures r == Unreadable && autoDownshift && OnlyDamage(script) ==> n == 1
      ensures Recovers(script, k) ==> r != Unreadable
      ensures script(k) == Complete ==> r == Fetched
      ensures r != Fetched ==> lines[..] == old(lines[..]) && next == old(next)
      ensures r == Fetched ==>
        && Stored(old(lines[..]), old(next), unit, sector, buf[at..at + n], lines[..])
        && next == Position(old(next), n)
      ensures n == 1 && old(Unique(lines[..])) ==> Unique(lines[..])
    {
      r, k' := FetchBatch(unit, sector, n, buf, at, script, k);
      if r == Fetched { FillCache(unit, sector, n, buf, at); }
    }

    /** Input_cmd. Terminates for every pattern of failures because each round
        delivers a sector or lowers the batch limit; what it delivers is the disk,
        as reading sector by sector would. A read past the end reports NotFound,
        whatever was delivered before. Damaged frames, as many as the batch can be
        halved, cost nothing but the batch, however few retries there are. */
    method Input(unit: byte, start: u32, count: u16, buf: array<Sector>, script: nat -> ReadCall) returns (s: Status)
      requires Valid() && Coherent() && count <= buf.Length
      modifies buf, lines, this`next, this`batch
      ensures Valid() && Coherent() && batch <= old(batch)
      ensures unit >= MAX_UNITS <==> s == UnknownUnit
      ensures s.Done? ==>
        && 0 < s.count <= count && start + s.count <= sectorMax[unit]
        && forall j :: 0 <= j < s.count ==> buf[j] == disk(slots[unit], start + j)
      ensures s == NotFound ==> start + count > sectorMax[unit]
      ensures s.Done? || s in {UnknownUnit, NotFound, GeneralFail}
      ensures unit < MAX_UNITS && 0 < count && start + count <= sectorMax[unit] ==>
        (forall k: nat :: Recovers(script, k)) ==> s == Done(count)
      // A batch whose first sector is not cached is stored whole.
      ensures unit < MAX_UNITS && old(WholeBatch(unit, start, count)) && script(0) == Complete ==>
        && s == Done(count) && next == Position(old(next), count) && batch == old(batch)
        && Stored(old(lines[..]), old(next), unit, start, buf[..count], lines[..])
      ensures old(batch) == 1 && old(Unique(lines[..])) ==> Unique(lines[..])
      // Downshifts: m damaged frames halve the batch m times, nothing else lowers it, and
      // damaged frames alone are fatal only to a single sector.
      ensures unit < MAX_UNITS && autoDownshift && old(Missing(unit, start, count)) ==>
        forall m: nat :: DamagedFirst(script, m) && Pow2(m) <= Min(count, old(batch)) ==>
          s == Done(count) && batch == if m == 0 then old(batch) else Min(count, old(batch)) / Pow2(m)
      ensures !autoDownshift || NoDamage(script) ==> batch == old(batch)
      ensures unit < MAX_UNITS && 0 < count && start + count <= sectorMax[unit] ==>
        autoDownshift && OnlyDamage(script) ==>
        s == Done(count) || batch == 1 || count == 1 || s == Done(count - 1)
    {
      if unit >= MAX_UNITS { return UnknownUnit; }
      ghost var m := Downshifts(unit, start, count, script);
      var done, pastEnd := ReadLoop(unit, start, count, buf, script, m);
      s := if pastEnd then NotFound else if done == 0 then GeneralFail else Done(done);
      if m.Some? { HalvesIsDiv(Min(count, old(batch)), m.value); }
      if autoDownshift && old(Missing(unit, start, count)) {
        forall n: nat | DamagedFirst(script, n) && Pow2(n) <= Min(count, old(batch)) ensures m == Some(n) {
          assert old(Promised(unit, start, count, script, n));
        }
      }
    }

    /** The number of downshifts, where that is known in advance. */
    ghost method Downshifts(unit: byte, start: u32, count: u16, script: nat -> ReadCall) returns (m: Option<nat>)
      requires Valid() && unit < MAX_UNITS
      ensures m.Some? ==> Promised(unit, start, count, script, m.value)
      ensures forall n: nat :: Promised(unit, start, count, script, n) ==> m == Some(n)
    {
      m := None;
      if n: nat :| Promised(unit, start, count, script, n) {
        m := Some(n);
        forall n': nat | Promised(unit, start, count, script, n') ensures n' == n { SameCount(script, n, n'); }
      }
    }

    /** m damaged frames come first, and the batch can be halved that often. */
    ghost predicate Promised(unit: byte, start: u32, count: u16, script: nat -> ReadCall, m: nat)
      requires Valid() && unit < MAX_UNITS
      reads this, lines
    {
      autoDownshift && Missing(unit, start, count) && DamagedFirst(script, m) && Pow2(m) <= Min(count, batch)
    }

    /** A promised read, after k calls: it is still being shrunk, or all calls complete
        from now on. */
    ghost predicate OnCourse(c: seq<Line>, b: nat, w: nat, m: nat, done: nat, k: nat)
      reads this, lines
    {
      if done == 0 then k <= m && lines[..] == c && batch == Halved(b, w, k)
      else k >= m && batch == Halved(b, w, m)
    }

    /** The first `done` sectors have been delivered. */
    ghost predicate Delivered(unit: byte, start: nat, buf: array<Sector>, done: nat)
      requires Valid() && unit < MAX_UNITS && done <= buf.Length
      reads this, buf
    {
      forall j :: 0 <= j < done ==> buf[j] == disk(slots[unit], start + j)
    }

    /** One round of the loop, after `done` sectors. */
    method Round(unit: byte, start: nat, count: nat, buf: array<Sector>, done: nat, script: nat -> ReadCall, k: nat,
                 ghost m: Option<nat>, ghost c: seq<Line>, ghost b: nat, ghost w: nat)
      returns (done': nat, ok: bool, k': nat)
      requires Valid() && Coherent() && unit < MAX_UNITS && done < count <= buf.Length
      requires start + done < sectorMax[unit] && Delivered(unit, start, buf, done)
      requires m.Some? ==> OnCourse(c, b, w, m.value, done, k) && w == Min(count, b) && Pow2(m.value) <= w
      requires m.Some? ==> autoDownshift && DamagedFirst(script, m.value) && start + count <= sectorMax[unit]
      requires m.Some? ==> Find(c, unit, start) == CACHE_SECTORS
      modifies buf, lines, this`next, this`batch
      ensures Valid() && Coherent() && done <= done' <= count && start + done' <= sectorMax[unit]
      ensures Delivered(unit, start, buf, done')
      ensures k <= k' && batch <= old(batch) && (ok && done' == done ==> batch < old(batch)) && (!ok ==> done' == done)
      ensures Recovers(script, k) ==> ok
      ensures done == 0 && old(WholeBatch(unit, start, count)) && script(k) == Complete ==>
          && done' == count && Stored(old(lines[..]), old(next), unit, start, buf[..count], lines[..])
          && next == Position(old(next), count) && batch == old(batch)
      ensures old(batch) == 1 && old(Unique(lines[..])) ==> Unique(lines[..])
      ensures m.Some? ==> ok && OnCourse(c, b, w, m.value, done', k')
      ensures !autoDownshift || NoDamage(script) ==> batch == old(batch)
      ensures !ok && autoDownshift && OnlyDamage(script) && start + count <= sectorMax[unit] ==>
        batch == 1 || done + 1 == count
    {
      if m.Some? && k <= m.value { HalvesEnough(w, k, m.value); }
      ghost var before := buf[..done];
      var n;
      n, ok, k' := ReadSome(unit, start + done, count - done, buf, done, script, k);
      assert forall j :: 0 <= j < done ==> buf[j] == before[j];
      done' := if ok then done + n else done;
    }

    /** The loop of Input_cmd. */
    method ReadLoop(unit: byte, start: u32, count: u16, buf: array<Sector>, script: nat -> ReadCall,
                    ghost m: Option<nat>)
      returns (done: nat, pastEnd: bool)
      requires Valid() && Coherent() && unit < MAX_UNITS && count <= buf.Length
      requires m.Some? ==> Promised(unit, start, count, script, m.value)
      modifies buf, lines, this`next, this`batch
      ensures Valid() && Coherent() && batch <= old(batch) && done <= count
      ensures done > 0 ==> start + done <= sectorMax[unit]
      ensures Delivered(unit, start, buf, done)
      ensures pastEnd ==> start + count > sectorMax[unit]
      ensures start + count <= sectorMax[unit] && (forall k: nat :: Recovers(script, k)) ==> done == count
      ensures old(WholeBatch(unit, start, count)) && script(0) == Complete ==>
        && done == count && next == Position(old(next), count) && batch == old(batch)
        && Stored(old(lines[..]), old(next), unit, start, buf[..count], lines[..])
      ensures old(batch) == 1 && old(Unique(lines[..])) ==> Unique(lines[..])
      ensures m.Some? ==> done == count && batch == Halved(old(batch), Min(count, old(batch)), m.value)
      ensures !autoDownshift || NoDamage(script) ==> batch == old(batch)
      ensures start + count <= sectorMax[unit] && autoDownshift && OnlyDamage(script) && done < count ==>
        batch == 1 || done + 1 == count
    {
      ghost var c, b, w := lines[..], batch, Min(count, batch);
      var k := 0;
      done, pastEnd := 0, false;
      while done < count
        invariant Valid() && Coherent() && 0 <= done <= count && batch <= old(batch)
        invariant done > 0 ==> start + done <= sectorMax[unit]
        invariant Delivered(unit, start, buf, done)
        invariant old(batch) == 1 && old(Unique(lines[..])) ==> Unique(lines[..])
        invariant old(WholeBatch(unit, start, count)) && script(0) == Complete ==>
          if done == 0 then k == 0 && lines[..] == c && next == old(next) && batch == b
          else
            && done == count && next == Position(old(next), count) && batch == b
            && Stored(c, old(next), unit, start, buf[..count], lines[..])
        invariant m.Some? ==> OnCourse(c, b, w, m.value, done, k)
        invariant !autoDownshift || NoDamage(script) ==> batch == b
        decreases count - done, batch
      {
        if start + done >= sectorMax[unit] { return done, true; }
        var ok;
        done, ok, k := Round(unit, start, count, buf, done, script, k, m, c, b, w);
        if !ok { break; }
      }
    }

    /** A batch the peer has acknowledged: it is on the disk, and the lowest cached
        copy of each sector is refreshed. */
    method WriteBatch(unit: byte, sector: nat, n: nat, buf: array<Sector>, at: nat)
      requires Valid() && unit < MAX_UNITS && at + n <= buf.Length && sector + n < 0x1_0000_0000
      modifies lines, this`disk
      ensures disk == PutAll(old(disk), slots[unit], sector, buf[at..at + n])
      ensures lines[..] == RefreshAll(old(lines[..]), unit, sector, buf[at..at + n])
    {
      for i := 0 to n
        invariant disk == PutAll(old(disk), slots[unit], sector, buf[at..at + i])
        invariant lines[..] == RefreshAll(old(lines[..]), unit, sector, buf[at..at + i])
      {
        assert buf[at..at + i + 1][..i] == buf[at..at + i];
        disk := Put(disk, slots[unit], sector + i, buf[at + i]);
        CacheRefresh(unit, sector + i, buf[at + i]);
      }
    }

    /** Since (d, c) exactly these sectors were written and refreshed. */
    ghost predicate Wrote(d: Disk, c: seq<Line>, unit: byte, lba: nat, data: seq<Sector>)
      requires Valid() && unit < MAX_UNITS && lba + |data| < 0x1_0000_0000
      reads this, lines
    {
      disk == PutAll(d, slots[unit], lba, data) && lines[..] == RefreshAll(c, unit, lba, data)
    }

    /** One more batch after `data`. */
    method WriteNext(unit: byte, lba: nat, n: nat, buf: array<Sector>, at: nat, ghost d: Disk, ghost c: seq<Line>)
      requires Valid() && unit < MAX_UNITS && at + n <= buf.Length && lba + at + n < 0x1_0000_0000
      requires Wrote(d, c, unit, lba, buf[..at])
      modifies lines, this`disk
      ensures Wrote(d, c, unit, lba, buf[..at + n])
    {
      assert buf[..at + n] == buf[..at] + buf[at..at + n];
      JoinWrites(d, c, slots[unit], unit, lba, buf[..at], buf[at..at + n]);
      WriteBatch(unit, lba + at, n, buf, at);
    }

    /** The loop of Output_cmd: whole batches until a call fails, the image ends or
        everything is written. `reached` counts the sectors that are on the disk. */
    method WriteLoop(unit: byte, start: u32, count: u16, buf: array<Sector>, script: nat -> WriteCall)
      returns (sent: nat, pastEnd: bool, ghost reached: nat, ghost calls: nat)
      requires Valid() && unit < MAX_UNITS && count <= buf.Length
      modifies lines, this`disk
      ensures sent <= reached <= count && start + reached < 0x1_0000_0000
      ensures pastEnd ==> sent < count && start + sent >= sectorMax[unit]
      ensures disk == PutAll(old(disk), slots[unit], start, buf[..reached])
      ensures lines[..] == RefreshAll(old(lines[..]), unit, start, buf[..sent])
      ensures Clean(script) ==> reached == sent
      // Whole batches, up to the first call that fails.
      ensures sent < count && !pastEnd ==>
        script(calls).Lost? && sent == calls * batch && forall i: nat :: i < calls ==> script(i) == Written
      ensures reached > sent ==> reached <= sent + batch
    {
      ghost var d, c := disk, lines[..];
      var k: nat := 0;
      sent := 0;
      while sent < count
        invariant 0 <= sent <= count && start + sent < 0x1_0000_0000
        invariant Wrote(d, c, unit, start, buf[..sent])
        invariant sent == k * batch || sent == count || start + sent >= sectorMax[unit]
        invariant forall i: nat :: i < k ==> script(i) == Written
        decreases count - sent
      {
        var sector := start + sent;
        if sector >= sectorMax[unit] { return sent, true, sent, k; }
        var n := Min(Min(count - sent, batch), sectorMax[unit] - sector);
        var call := script(k);
        if call.Lost? {
          var m := Min(call.applied, n);
          LoseBatch(unit, start, m, buf, sent, d);
          return sent, false, sent + m, k;
        }
        WriteNext(unit, start, n, buf, sent, d, c);
        NextProduct(k, batch);
        k, sent := k + 1, sent + n;
      }
      pastEnd, reached, calls := false, sent, k;
    }

    lemma NextProduct(k: nat, n: nat)
      ensures (k + 1) * n == k * n + n
    {
    }

    /** A batch reported as failed after its first m sectors had reached the disk. */
    method LoseBatch(unit: byte, lba: nat, m: nat, buf: array<Sector>, at: nat, ghost d: Disk)
      requires Valid() && unit < MAX_UNITS && at + m <= buf.Length
      requires disk == PutAll(d, slots[unit], lba, buf[..at])
      modifies this`disk
      ensures disk == PutAll(d, slots[unit], lba, buf[..at + m])
    {
      assert buf[..at + m] == buf[..at] + buf[at..at + m];
      PutAllConcat(d, slots[unit], lba, buf[..at], buf[at..at + m]);
      disk := PutAll(disk, slots[unit], lba + at, buf[at..at + m]);
    }

    /** Output_cmd. The disk receives the first `reached` sectors of the buffer and
        nothing else changes; `done` of them were acknowledged and refreshed in the
        cache, all if failed calls leave the disk alone. The cache stays coherent if
        every acknowledged sector had at most one copy and the others none. */
    method Output(unit: byte, start: u32, count: u16, buf: array<Sector>, ready: bool, readOnly: bool,
                  script: nat -> WriteCall)
      returns (s: Status, ghost done: nat, ghost reached: nat, ghost calls: nat)
      requires Valid() && Coherent() && count <= buf.Length
      modifies lines, this`disk
      ensures Valid() && done <= reached <= count && start + reached < 0x1_0000_0000
      ensures unit >= MAX_UNITS <==> s == UnknownUnit
      ensures unit < MAX_UNITS ==> (s == NotReady <==> !ready) && (s == WriteProtect <==> ready && readOnly)
      ensures s in {UnknownUnit, NotReady, WriteProtect, GeneralFail} ==> done == 0
      ensures s in {UnknownUnit, NotReady, WriteProtect} ==> reached == 0
      ensures s == NotFound ==> done < count && start + done >= sectorMax[unit]
      ensures s.Done? ==> s.count == done > 0
      ensures s.Done? || s in {UnknownUnit, NotReady, WriteProtect, NotFound, GeneralFail}
      // Inside the image nothing but a failing call ends the write early: whole batches are
      // written up to the first one.
      ensures unit < MAX_UNITS && ready && !readOnly && 0 < count && start + count <= sectorMax[unit] ==>
        s == Done(count) || (script(calls).Lost? && done == calls * batch && reached <= done + batch
                             && forall i: nat :: i < calls ==> script(i) == Written)
      ensures Clean(script) ==> reached == done
      ensures disk == if unit < MAX_UNITS then PutAll(old(disk), slots[unit], start, buf[..reached]) else old(disk)
      ensures lines[..] == RefreshAll(old(lines[..]), unit, start, buf[..done]) && SameKeys(old(lines[..]), lines[..])
      ensures unit < MAX_UNITS && old(AllSole(lines[..], slots, unit, start, done)) ==>
        old(Uncached(lines[..], slots, slots[unit], start + done, reached - done)) ==> Coherent()
    {
      done, reached, calls := 0, 0, 0;
      if unit >= MAX_UNITS { return UnknownUnit, 0, 0, 0; }
      if !ready { return NotReady, 0, 0, 0; }
      if readOnly { return WriteProtect, 0, 0, 0; }
      ghost var d, c := disk, lines[..];
      var sent, pastEnd, r, k := WriteLoop(unit, start, count, buf, script);
      done, reached, calls := sent, r, k;
      StaysCoherent(c, d, unit, start, buf[..sent], buf[sent..r]);
      assert buf[..r] == buf[..sent] + buf[sent..r];
      RefreshAllSameKeys(c, unit, start, buf[..sent]);
      s := if pastEnd then NotFound else if sent == 0 then GeneralFail else Done(sent);
    }

    /** Acknowledged sectors, then sectors that the cache does not know of. */
    lemma StaysCoherent(c: seq<Line>, d: Disk, unit: byte, lba: nat, known: seq<Sector>, lost: seq<Sector>)
      requires Valid() && unit < MAX_UNITS && lba + |known| + |lost| < 0x1_0000_0000 && Agrees(c, slots, d)
      ensures AllSole(c, slots, unit, lba, |known|) && Uncached(c, slots, slots[unit], lba + |known|, |lost|) ==>
        Agrees(RefreshAll(c, unit, lba, known), slots, PutAll(d, slots[unit], lba, known + lost))
    {
      if AllSole(c, slots, unit, lba, |known|) && Uncached(c, slots, slots[unit], lba + |known|, |lost|) {
        var r := RefreshAll(c, unit, lba, known);
        WriteAllKeepsAgreement(c, slots, d, unit, lba, known);
        RefreshAllSameKeys(c, unit, lba, known);
        SameKeysUncached(c, r, slots, slots[unit], lba + |known|, |lost|);
        LostWriteKeepsAgreement(r, slots, PutAll(d, slots[unit], lba, known), slots[unit], lba + |known|, lost);
        PutAllConcat(d, slots[unit], lba, known, lost);
      }
    }

    /** Build_bpb_cmd. `mediaGone` is the early exit on cached information that
        reports neither an inserted nor a changed medium; it keeps the old table.
        Otherwise the boot sector's table bounds all later reads and writes. */
    method BuildBpb(unit: byte, mediaGone: bool, call: ReadCall) returns (s: Status, boot: Sector)
      requires Valid() && Coherent()
      modifies lines, this`next, this`sectorMax
      ensures Valid() && Coherent()
      ensures old(Unique(lines[..])) ==> Unique(lines[..])
      ensures unit >= MAX_UNITS <==> s == UnknownUnit
      ensures s == Done(1) ==> boot == disk(slots[unit], 0)
      ensures sectorMax == if s == Done(1) then old(sectorMax)[unit := SectorCount(boot)] else old(sectorMax)
      ensures s == Done(1) ==> forall n: u32 :: Describes(disk(slots[unit], 0), n) ==> sectorMax[unit] == n
      ensures s in {UnknownUnit, Done(0), Done(1), ReadFault}
      ensures unit < MAX_UNITS && !mediaGone && call == Complete ==> s == Done(1)
    {
      boot := BLANK;
      if unit >= MAX_UNITS { return UnknownUnit, BLANK; }
      if mediaGone { return Done(0), BLANK; }
      var cached := CacheFind(unit, 0);
      if cached < CACHE_SECTORS {
        boot := lines[cached].data;
      } else {
        if call != Complete { return ReadFault, BLANK; }
        boot := disk(slots[unit], 0);
        if Unique(lines[..]) { StoreKeepsUnique(lines[..], next, Line(true, unit, 0, boot)); }
        StoreRead(unit, 0, boot);
      }
      forall n: u32 | Describes(boot, n) ensures SectorCount(boot) == n { CountIsRead(boot, n); }
      sectorMax := sectorMax[unit := SectorCount(boot)];
      s := Done(1);
    }

    /** SET_UNIT_MAP: the unit's sectors are dropped before it is remapped. */
    method SetUnitMap(unit: byte, slot: byte) returns (s: Status)
      requires Valid() && Coherent()
      modifies lines, this`slots
      ensures Valid() && Coherent()
      ensures old(Unique(lines[..])) ==> Unique(lines[..])
      ensures s == if unit >= MAX_UNITS then UnknownUnit else if slot >= MAX_UNITS then BadRequestLength else Done(0)
      ensures slots == if unit < MAX_UNITS && slot < MAX_UNITS then old(slots)[unit := slot] else old(slots)
    {
      if unit >= MAX_UNITS { return UnknownUnit; }
      if slot >= MAX_UNITS { return BadRequestLength; }
      CacheInvalidateUnit(unit);
      slots := slots[unit := slot];
      assert forall i :: 0 <= i < CACHE_SECTORS ==> lines[..][i] == lines[i];
      s := Done(0);
    }

    /** A run of requests with one-sector batches keeps at most one copy of each sector
        of a unit, equal to the disk, if every write goes to a unit that shares its slot
        with no other unit at that time and failed calls leave the disk alone. Units may
        be remapped at will. */
    method Serve(rs: seq<Request>, buf: array<Sector>)
      requires Valid() && Coherent() && Unique(lines[..]) && batch == 1 && buf.Length >= 0x1_0000
      requires GoodWrites(slots, rs)
      modifies this, lines, buf
      ensures Valid() && Coherent() && Unique(lines[..]) && batch == 1 && slots == MapAfter(old(slots), rs)
    {
      for i := 0 to |rs|
        invariant Valid() && Coherent() && Unique(lines[..]) && batch == 1 && slots == MapAfter(old(slots), rs[..i])
      {
        assert rs[..i + 1][..i] == rs[..i];
        match rs[i] {
          case Read(unit, start, count, fetches) =>
            var _ := Input(unit, start, count, buf, fetches);
          case Write(unit, start, count, ready, readOnly, writes) =>
            WriteAlone(unit, start, count, buf, ready, readOnly, writes);
          case Bpb(unit, mediaGone, call) =>
            var _, _ := BuildBpb(unit, mediaGone, call);
          case Map(unit, slot) =>
            var _ := SetUnitMap(unit, slot);
        }
      }
      assert rs[..|rs|] == rs;
    }

    /** A write to a unit with a slot of its own. */
    method WriteAlone(unit: byte, start: u32, count: u16, buf: array<Sector>, ready: bool, readOnly: bool,
                      writes: nat -> WriteCall)
      requires Valid() && Coherent() && Unique(lines[..]) && count <= buf.Length
      requires Clean(writes) && (unit < MAX_UNITS ==> Unshared(slots, unit))
      modifies lines, this`disk
      ensures Valid() && Coherent() && Unique(lines[..])
    {
      ghost var before := lines[..];
      var _, done, _, _ := Output(unit, start, count, buf, ready, readOnly, writes);
      if unit < MAX_UNITS { UniqueIsSole(before, slots, unit, start, done); }
      SameKeysUnique(before, lines[..]);
    }
  }

  /** The duplicate is real. With batches of two, reading sector 1 and then sectors 0 and
      1 caches sector 1 twice, and a write of sector 1 leaves the second copy stale. */
  method DuplicateGoesStale(was: Sector, now: Sector) returns (driver: DosDriver)
    requires was != now
    ensures driver.Valid() && !driver.Coherent()
  {
    driver := CachedTwice(was);
    var buf := new Sector[1](_ => now);
    ghost var c := driver.lines[..];
    assert buf[..1] == [now] && [now][..0] == [];
    var s, done, _, _ := driver.Output(0, 1, 1, buf, true, false, _ => Written);
    assert driver.lines[..] == Refresh(c, 0, 1, now);
    assert driver.lines[..][2] == c[2];
  }

  method CachedTwice(was: Sector) returns (driver: DosDriver)
    ensures fresh(driver) && fresh(driver.lines) && driver.Valid() && driver.Coherent()
    ensures driver.lines[0] == driver.lines[2] == Line(true, 0, 1, was) && Find(driver.lines[..], 0, 1) == 0
    ensures driver.sectorMax[0] == INITIAL_SECTORS
  {
    driver := CachedOnce(was);
    ghost var c := driver.lines[..];
    var buf := new Sector[2](_ => BLANK);
    var _ := driver.Input(0, 0, 2, buf, _ => Complete);
    assert buf[..2] == [was, was];
    StoredTwo(c, 1, 0, 0, was, was, driver.lines[..]);
  }

  method CachedOnce(was: Sector) returns (driver: DosDriver)
    ensures fresh(driver) && fresh(driver.lines) && driver.Valid() && driver.Coherent()
    ensures driver.lines[0] == Line(true, 0, 1, was) && Find(driver.lines[..], 0, 0) == CACHE_SECTORS
    ensures driver.next == 1 && driver.batch == 2 && driver.sectorMax[0] == INITIAL_SECTORS
    ensures driver.disk(driver.slots[0], 0) == driver.disk(driver.slots[0], 1) == was
  {
    driver := new DosDriver((s, l) => was, 2);
    ghost var c := driver.lines[..];
    var buf := new Sector[1](_ => BLANK);
    var _ := driver.Input(0, 1, 1, buf, _ => Complete);
    assert buf[..1] == [was];
    StoredOne(c, 0, 0, 1, [was], driver.lines[..]);
  }

  lemma StoredTwo(c: seq<Line>, next: nat, unit: byte, lba: nat, a: Sector, b: Sector, r: seq<Line>)
    requires next + 1 < CACHE_SECTORS && lba + 2 < 0x1_0000_0000 && Stored(c, next, unit, lba, [a, b], r)
    ensures r == c[next := Line(true, unit, lba, a)][next + 1 := Line(true, unit, lba + 1, b)]
  {
  }
}
