/** FAT12/16/32 entries as bytes on disk (fs/fat.c:24-62 and 312-376). */
module FatCodec {
  import opened CArithmetic

  type Sector = s: seq<Byte> | |s| == 512 witness seq(512, _ => 0)

  const SECTOR := 512

  datatype FatType = FAT12 | FAT16 | FAT32

  /** Where the entry of a cluster starts, and how many bytes its reading and writing touch. */
  function Offset(t: FatType, c: nat): nat {
    match t
    case FAT12 => c * 3 / 2
    case FAT16 => c * 2
    case FAT32 => c * 4
  }

  function Span(t: FatType): nat {
    match t
    case FAT12 => 2
    case FAT16 => 2
    case FAT32 => 4
  }

  /** One more than the largest value an entry can hold. */
  function Values(t: FatType): nat {
    match t
    case FAT12 => 0x1000
    case FAT16 => 0x1_0000
    case FAT32 => 0x1000_0000
  }

  /** The two-byte and four-byte entries, from their bytes in disk order. */
  function Get12(b0: Byte, b1: Byte, odd: bool): nat {
    if odd then (b0 + 256 * b1) / 16 else (b0 + 256 * b1) % 0x1000
  }

  function Get32(b0: Byte, b1: Byte, b2: Byte, b3: Byte): nat {
    (b0 + 0x100 * b1 + 0x1_0000 * b2 + 0x100_0000 * b3) % 0x1000_0000
  }

  /** The word that replaces a FAT12 pair: the other entry's nibble stays. */
  function Put12(b0: Byte, b1: Byte, odd: bool, value: nat): nat {
    var v := b0 + 256 * b1;
    if odd then v % 16 + value % 0x1000 * 16 else v / 0x1000 * 0x1000 + value % 0x1000
  }

  /** The top byte of a FAT32 entry keeps its high nibble. */
  function Put32(b0: Byte, b1: Byte, b2: Byte, b3: Byte, value: nat): nat {
    (b0 + 0x100 * b1 + 0x1_0000 * b2 + 0x100_0000 * b3) / 0x1000_0000 * 0x1000_0000 + value % 0x1000_0000
  }

  /** Byte `k` of the region that starts at sector `base`. */
  function ByteAt(d: seq<Sector>, base: nat, k: nat): Byte
    requires base + k / SECTOR < |d|
  {
    d[base + k / SECTOR][k % SECTOR]
  }

  /** Both ends of an entry are on the disk. */
  predicate Fits(d: seq<Sector>, base: nat, t: FatType, c: nat) {
    base + (Offset(t, c) + Span(t) - 1) / SECTOR < |d|
  }

  function EntryAt(d: seq<Sector>, base: nat, t: FatType, c: nat): (e: nat)
    requires Fits(d, base, t, c)
    ensures e < Values(t)
  {
    var o := Offset(t, c);
    match t
    case FAT12 => Get12(ByteAt(d, base, o), ByteAt(d, base, o + 1), c % 2 == 1)
    case FAT16 => ByteAt(d, base, o) + 256 * ByteAt(d, base, o + 1)
    case FAT32 => Get32(ByteAt(d, base, o), ByteAt(d, base, o + 1), ByteAt(d, base, o + 2), ByteAt(d, base, o + 3))
  }

  /** Byte `k` of the region after `value` is written for cluster `c`. */
  function NewByte(d: seq<Sector>, base: nat, t: FatType, c: nat, value: nat, k: nat): Byte
    requires Fits(d, base, t, c) && base + k / SECTOR < |d|
  {
    var o := Offset(t, c);
    if !(o <= k < o + Span(t)) then ByteAt(d, base, k) else
      match t
      case FAT12 =>
        var n := Put12(ByteAt(d, base, o), ByteAt(d, base, o + 1), c % 2 == 1, value);
        if k == o then n % 256 else n / 256 % 256
      case FAT16 => if k == o then value % 256 else value / 256 % 256
      case FAT32 =>
        var n := Put32(ByteAt(d, base, o), ByteAt(d, base, o + 1), ByteAt(d, base, o + 2), ByteAt(d, base, o + 3),
          value);
        if k == o then n % 256 else if k == o + 1 then n / 256 % 256
        else if k == o + 2 then n / 256 / 256 % 256 else n / 256 / 256 / 256 % 256
  }

  /** `d'` is `d` with `value` written for cluster `c`, as far as the first `n` bytes go. */
  ghost predicate EntryWritten(d: seq<Sector>, d': seq<Sector>, base: nat, t: FatType, c: nat, value: nat, n: nat) {
    && |d'| == |d| && Fits(d, base, t, c)
    && forall k: nat :: k < n && base + k / SECTOR < |d| ==> ByteAt(d', base, k) == NewByte(d, base, t, c, value, k)
  }

  lemma {:induction false} Pair12(b0: Byte, b1: Byte, odd: bool, value: nat)
    ensures var n := Put12(b0, b1, odd, value);
            && n < 0x1_0000
            && Get12(n % 256, n / 256 % 256, odd) == value % 0x1000
            && (if odd then n % 256 % 16 == b0 % 16 else n / 256 % 256 / 16 == b1 / 16)
  {
    var v, w := b0 + 256 * b1, value % 0x1000;
    if odd {
      assert v % 16 == b0 % 16;
      OddPair(b0 % 16, w);
    } else {
      assert v / 0x1000 == b1 / 16;
      EvenPair(b1 / 16, w);
    }
  }

  lemma {:induction false} OddPair(low: nat, w: nat)
    requires low < 16 && w < 0x1000
    ensures var n := low + w * 16;
            n < 0x1_0000 && (n % 256 + 256 * (n / 256 % 256)) / 16 == w && n % 256 % 16 == low
  {
    var n := low + w * 16;
    var q := n / 256;
    assert q == w / 16 && n % 256 == low + 16 * (w % 16);
    assert n % 256 + 256 * q == n;
  }

  lemma {:induction false} EvenPair(h: nat, w: nat)
    requires h < 16 && w < 0x1000
    ensures var n := h * 0x1000 + w;
            n < 0x1_0000 && (n % 256 + 256 * (n / 256 % 256)) % 0x1000 == w && n / 256 % 256 / 16 == h
  {
    var n := h * 0x1000 + w;
    var q := n / 256;
    assert q == h * 16 + w / 256 && n % 256 == w % 256;
    assert n % 256 + 256 * q == n;
  }

  lemma {:induction false} Digits(n: nat)
    requires n < 0x1_0000_0000
    ensures n % 256 + 0x100 * (n / 256 % 256) + 0x1_0000 * (n / 256 / 256 % 256)
            + 0x100_0000 * (n / 256 / 256 / 256 % 256) == n
    ensures n / 256 / 256 / 256 < 256
  {
    var q := n / 256;
    var r := q / 256;
    assert n == 256 * q + n % 256 && q == 256 * r + q % 256 && r == 256 * (r / 256) + r % 256 && r / 256 < 256;
  }

  lemma {:induction false} HighNibble(v: nat, b3: Byte)
    requires 0x100_0000 * b3 <= v < 0x100_0000 * (b3 + 1)
    ensures v / 0x1000_0000 == b3 / 16
  {
    var h := b3 / 16;
    assert b3 == 16 * h + b3 % 16;
    assert 0x1000_0000 * h <= v < 0x1000_0000 * (h + 1);
  }

  lemma {:induction false} Quad32(b0: Byte, b1: Byte, b2: Byte, b3: Byte, value: nat)
    ensures var n := Put32(b0, b1, b2, b3, value);
            && n < 0x1_0000_0000
            && Get32(n % 256, n / 256 % 256, n / 256 / 256 % 256, n / 256 / 256 / 256 % 256) == value % 0x1000_0000
            && n / 256 / 256 / 256 % 256 / 16 == b3 / 16
  {
    var v := b0 + 0x100 * b1 + 0x1_0000 * b2 + 0x100_0000 * b3;
    var h, w := b3 / 16, value % 0x1000_0000;
    HighNibble(v, b3);
    var n := h * 0x1000_0000 + w;
    assert n == Put32(b0, b1, b2, b3, value);
    assert n < 0x1_0000_0000 && n % 0x1000_0000 == w;
    Digits(n);
    TopDigit(n, h, w);
  }

  lemma {:induction false} TopDigit(n: nat, h: nat, w: nat)
    requires n == h * 0x1000_0000 + w && w < 0x1000_0000 && h < 16
    ensures n / 256 / 256 / 256 % 256 / 16 == h
  {
    var q := n / 256;
    assert q == h * 0x10_0000 + w / 256;
    var r := q / 256;
    assert r == h * 0x1000 + w / 256 / 256;
    assert r / 256 == h * 16 + w / 256 / 256 / 256;
  }

  /** Reading back the written cluster gives the value cut to the entry's width. */
  lemma {:induction false} ReadWritten(
      d: seq<Sector>, d': seq<Sector>, base: nat, t: FatType, c: nat, value: nat, n: nat)
    requires EntryWritten(d, d', base, t, c, value, n) && Offset(t, c) + Span(t) <= n
    ensures EntryAt(d', base, t, c) == value % Values(t)
  {
    hide ByteAt, Put12, Put32, Get12, Get32;
    var o := Offset(t, c);
    match t
    case FAT12 => Pair12(ByteAt(d, base, o), ByteAt(d, base, o + 1), c % 2 == 1, value);
    case FAT16 => assert value % 256 + 256 * (value / 256 % 256) == value % 0x1_0000;
    case FAT32 => Quad32(ByteAt(d, base, o), ByteAt(d, base, o + 1), ByteAt(d, base, o + 2), ByteAt(d, base, o + 3),
      value);
  }

  /** Every other cluster reads as before, nibble neighbours and straddling entries included. */
  lemma {:induction false} ReadOther(
      d: seq<Sector>, d': seq<Sector>, base: nat, t: FatType, c: nat, value: nat, n: nat, x: nat)
    requires EntryWritten(d, d', base, t, c, value, n) && x != c
    requires Fits(d, base, t, x) && Offset(t, x) + Span(t) <= n
    ensures EntryAt(d', base, t, x) == EntryAt(d, base, t, x)
  {
    hide ByteAt, Put12, Put32, Get12, Get32;
    match t
    case FAT12 => ReadOther12(d, d', base, c, value, n, x);
    case FAT16 =>
    case FAT32 =>
  }

  lemma {:induction false} ReadOther12(d: seq<Sector>, d': seq<Sector>, base: nat, c: nat, value: nat, n: nat, x: nat)
    requires EntryWritten(d, d', base, FAT12, c, value, n) && x != c
    requires Fits(d, base, FAT12, x) && x * 3 / 2 + 2 <= n
    ensures EntryAt(d', base, FAT12, x) == EntryAt(d, base, FAT12, x)
  {
    var o, p := x * 3 / 2, c * 3 / 2;
    Positions12(x, c);
    hide ByteAt, Put12, Get12, Offset;
    assert Offset(FAT12, x) == o && Offset(FAT12, c) == p by {
      OffsetIs12(x);
      OffsetIs12(c);
    }
    Pair12(ByteAt(d, base, p), ByteAt(d, base, p + 1), c % 2 == 1, value);
    Nibbles(ByteAt(d, base, o), ByteAt(d, base, o + 1));
    Nibbles(ByteAt(d', base, o), ByteAt(d', base, o + 1));
  }

  lemma {:induction false} OffsetIs12(c: nat)
    ensures Offset(FAT12, c) == c * 3 / 2
  {}

  /** Two FAT12 entries share a byte only as an even cluster and its successor. */
  lemma {:induction false} Positions12(x: nat, c: nat)
    requires x != c
    ensures var o, p := x * 3 / 2, c * 3 / 2;
            (x % 2 == 0 && c % 2 == 1 && p == o + 1) || (x % 2 == 1 && c % 2 == 0 && o == p + 1) || o + 1 < p
              || p + 1 < o
  {
    var a, b := x / 2, c / 2;
    assert x * 3 / 2 == 3 * a + x % 2 && c * 3 / 2 == 3 * b + c % 2;
  }

  /** An odd entry is decided by a high nibble and a byte, an even one by a byte and a low nibble. */
  lemma {:induction false} Nibbles(b0: Byte, b1: Byte)
    ensures Get12(b0, b1, true) == b0 / 16 + 16 * b1
    ensures Get12(b0, b1, false) == b0 + 256 * (b1 % 16)
  {}

  /** A FAT32 write keeps the four reserved bits of the entry. */
  lemma {:induction false} ReservedBitsKept(d: seq<Sector>, d': seq<Sector>, base: nat, c: nat, value: nat, n: nat)
    requires EntryWritten(d, d', base, FAT32, c, value, n) && 4 * c + 4 <= n
    ensures ByteAt(d', base, 4 * c + 3) / 16 == ByteAt(d, base, 4 * c + 3) / 16
  {
    var o := 4 * c;
    Quad32(ByteAt(d, base, o), ByteAt(d, base, o + 1), ByteAt(d, base, o + 2), ByteAt(d, base, o + 3), value);
  }
}

/** One mounted volume: its layout and the sectors behind it. */
module FatVolume {
  import opened CArithmetic
  import opened FatCodec

  /** The fields fs/fat.c:134-146 derives from the boot sector; two FAT copies, 512-byte sectors. */
  datatype Geometry = Geometry(
    fatType: FatType, reserved: nat, fatSize: nat, rootSectors: nat, sectorsPerCluster: nat, totalSectors: nat)
  {
    function FirstData(): nat {
      reserved + 2 * fatSize + rootSectors
    }

    /** fs/fat.c:719-720. */
    function MaxCluster(): (n: nat)
      requires sectorsPerCluster > 0 && FirstData() <= totalSectors
      ensures n >= 2
    {
      2 + (totalSectors - FirstData()) / sectorsPerCluster
    }
  }

  /** The largest cluster bound the entry width allows below the reserved values. */
  function Limit(t: FatType): nat {
    match t
    case FAT12 => 0xFF6
    case FAT16 => 0xFFF6
    case FAT32 => 0xFFF_FFF6
  }

  ghost predicate GeometryOk(g: Geometry, n: nat) {
    && 1 <= g.sectorsPerCluster <= 64
    && g.FirstData() <= g.totalSectors <= n < 0x1_0000_0000
    && g.MaxCluster() <= Limit(g.fatType)
    && Offset(g.fatType, g.MaxCluster() - 1) + Span(g.fatType) <= g.fatSize * SECTOR
  }

  /** What a failed read of the table yields (fs/fat.c:35, 52, 58). */
  function FailedRead(t: FatType): nat {
    if t == FAT16 then 0xFFFF else 0xFFF_FFFF
  }

  /** The table entry of any cluster number; the table is read on past its end if asked. */
  function Entry(d: seq<Sector>, g: Geometry, c: nat): nat {
    if Fits(d, g.reserved, g.fatType, c) then EntryAt(d, g.reserved, g.fatType, c) else FailedRead(g.fatType)
  }

  /** The two copies of the table are the same. */
  ghost predicate CopiesEqual(d: seq<Sector>, g: Geometry)
    requires g.reserved + 2 * g.fatSize <= |d|
  {
    forall l: nat :: g.reserved <= l < g.reserved + g.fatSize ==> d[l] == d[l + g.fatSize]
  }

  /** Outside the two tables nothing has changed. */
  ghost predicate OnlyTables(d: seq<Sector>, d': seq<Sector>, g: Geometry) {
    && |d'| == |d|
    && forall l: nat :: l < |d| && !(g.reserved <= l < g.reserved + 2 * g.fatSize) ==> d'[l] == d[l]
  }

  /** The table as the driver sees it: one value per cluster number. */
  ghost function Table(d: seq<Sector>, g: Geometry): (t: seq<nat>)
    requires GeometryOk(g, |d|)
    ensures |t| == g.MaxCluster()
  {
    seq(g.MaxCluster(), c requires 0 <= c < g.MaxCluster() => Entry(d, g, c))
  }

  /** The entry lies in the first table, whether or not the cluster exists. */
  predicate InTable(g: Geometry, c: nat) {
    Offset(g.fatType, c) + Span(g.fatType) <= g.fatSize * SECTOR
  }

  lemma {:induction false} EntryFits(d: seq<Sector>, g: Geometry, c: nat)
    requires GeometryOk(g, |d|) && InTable(g, c)
    ensures Fits(d, g.reserved, g.fatType, c)
  {}

  lemma {:induction false} ValidClusterFits(d: seq<Sector>, g: Geometry, c: nat)
    requires GeometryOk(g, |d|) && c < g.MaxCluster()
    ensures Fits(d, g.reserved, g.fatType, c) && InTable(g, c)
  {
    OffsetMonotone(g.fatType, c, g.MaxCluster() - 1);
  }

  lemma {:induction false} OffsetMonotone(t: FatType, a: nat, b: nat)
    requires a <= b
    ensures Offset(t, a) <= Offset(t, b)
  {}

  /** A written entry shows up in the table, cut to its width, and nothing else does. */
  lemma {:induction false} TableAfterWrite(d: seq<Sector>, d': seq<Sector>, g: Geometry, c: nat, value: nat)
    requires GeometryOk(g, |d|) && |d'| == |d| && c < g.MaxCluster()
    requires EntryWritten(d, d', g.reserved, g.fatType, c, value, g.fatSize * SECTOR)
    ensures Table(d', g) == Table(d, g)[c := value % Values(g.fatType)]
  {
    hide EntryAt, EntryWritten, Fits, Offset;
    var t := g.fatType;
    ValidClusterFits(d, g, c);
    forall x: nat | x < g.MaxCluster()
      ensures Entry(d', g, x) == if x == c then value % Values(t) else Entry(d, g, x)
    {
      ValidClusterFits(d, g, x);
      ValidClusterFits(d', g, x);
      if x == c {
        ReadWritten(d, d', g.reserved, t, c, value, g.fatSize * SECTOR);
      } else {
        ReadOther(d, d', g.reserved, t, c, value, g.fatSize * SECTOR, x);
      }
    }
  }

  /** The entry's two bytes lie in two sectors. */
  predicate Straddles(t: FatType, c: nat) {
    t == FAT12 && Offset(t, c) % SECTOR == SECTOR - 1
  }

  function Patch2(s: Sector, o: nat, n: nat): Sector
    requires o + 2 <= SECTOR
  {
    s[o := n % 256][o + 1 := n / 256 % 256]
  }

  function Patch4(s: Sector, o: nat, n: nat): Sector
    requires o + 4 <= SECTOR
  {
    s[o := n % 256][o + 1 := n / 256 % 256][o + 2 := n / 256 / 256 % 256][o + 3 := n / 256 / 256 / 256 % 256]
  }

  /** Sector `lba` and its mirror both become `s`; writes outside the device fail. */
  function Store(d: seq<Sector>, lba: nat, fatSize: nat, s: Sector): (d': seq<Sector>)
    ensures |d'| == |d|
  {
    var d1 := if lba < |d| then d[lba := s] else d;
    if lba + fatSize < |d| then d1[lba + fatSize := s] else d1
  }

  /**
   * The branch for an entry in two sectors (fs/fat.c:346-353, 364-374). When the first sector is
   * written back, the buffer holds the second one, read last.
   */
  function TornWrite(d: seq<Sector>, lba: nat, fatSize: nat, odd: bool, value: nat): (d': seq<Sector>)
    requires lba + 1 < |d|
    ensures |d'| == |d|
  {
    var n := Put12(d[lba][SECTOR - 1], d[lba + 1][0], odd, value);
    var d1 := Store(d, lba, fatSize, d[lba + 1][SECTOR - 1 := n % 256]);
    Store(d1, lba + 1, fatSize, d1[lba + 1][0 := n / 256 % 256])
  }

  /** The disk after fs/fat.c:313-376, branch by branch. */
  function AfterWrite(d: seq<Sector>, g: Geometry, c: nat, value: nat): (d': seq<Sector>)
    ensures |d'| == |d|
  {
    var o := Offset(g.fatType, c) % SECTOR;
    var lba := g.reserved + Offset(g.fatType, c) / SECTOR;
    if lba >= |d| then d else
      match g.fatType
      case FAT16 => Store(d, lba, g.fatSize, Patch2(d[lba], o, value % 0x1_0000))
      case FAT32 =>
        var n := Put32(d[lba][o], d[lba][o + 1], d[lba][o + 2], d[lba][o + 3], value);
        Store(d, lba, g.fatSize, Patch4(d[lba], o, n))
      case FAT12 =>
        if o + 1 < SECTOR then
          Store(d, lba, g.fatSize, Patch2(d[lba], o, Put12(d[lba][o], d[lba][o + 1], c % 2 == 1, value)))
        else if lba + 1 >= |d| then d else TornWrite(d, lba, g.fatSize, c % 2 == 1, value)
  }

  lemma {:induction false} StoreByte(d: seq<Sector>, base: nat, fatSize: nat, i: nat, s: Sector, k: nat)
    requires base + 2 * fatSize <= |d| && i < fatSize && k < fatSize * SECTOR
    ensures base + k / SECTOR < |d|
    ensures ByteAt(Store(d, base + i, fatSize, s), base, k) ==
            if k / SECTOR == i then s[k % SECTOR] else ByteAt(d, base, k)
  {
    assert k / SECTOR < fatSize;
  }

  lemma {:induction false} StoreFrame(d: seq<Sector>, g: Geometry, i: nat, s: Sector)
    requires g.reserved + 2 * g.fatSize <= |d| && i < g.fatSize
    ensures OnlyTables(d, Store(d, g.reserved + i, g.fatSize, s), g)
    ensures CopiesEqual(d, g) ==> CopiesEqual(Store(d, g.reserved + i, g.fatSize, s), g)
  {}

  lemma {:induction false} TornFrame(d: seq<Sector>, g: Geometry, i: nat, odd: bool, value: nat)
    requires g.reserved + 2 * g.fatSize <= |d| && i + 1 < g.fatSize
    ensures OnlyTables(d, TornWrite(d, g.reserved + i, g.fatSize, odd, value), g)
    ensures CopiesEqual(d, g) ==> CopiesEqual(TornWrite(d, g.reserved + i, g.fatSize, odd, value), g)
  {
    hide OnlyTables, CopiesEqual, Store, Put12;
    var lba := g.reserved + i;
    var n := Put12(d[lba][SECTOR - 1], d[lba + 1][0], odd, value);
    var s := d[lba + 1][SECTOR - 1 := n % 256];
    var d1 := Store(d, lba, g.fatSize, s);
    StoreFrame(d, g, i, s);
    var s' := d1[lba + 1][0 := n / 256 % 256];
    StoreFrame(d1, g, i + 1, s');
    FrameTransitive(d, d1, Store(d1, lba + 1, g.fatSize, s'), g);
  }

  lemma {:induction false} FrameTransitive(d: seq<Sector>, d1: seq<Sector>, d2: seq<Sector>, g: Geometry)
    requires OnlyTables(d, d1, g) && OnlyTables(d1, d2, g)
    ensures OnlyTables(d, d2, g)
  {}

  /** Where a write goes. */
  lemma {:induction false} WritePlace(d: seq<Sector>, g: Geometry, c: nat)
    requires GeometryOk(g, |d|) && InTable(g, c)
    ensures g.reserved + 2 * g.fatSize <= |d|
    ensures var off := Offset(g.fatType, c);
            off / SECTOR < g.fatSize && (Straddles(g.fatType, c) ==> off / SECTOR + 1 < g.fatSize)
  {
    EntryFits(d, g, c);
    hide Offset;
    var off := Offset(g.fatType, c);
    if Straddles(g.fatType, c) {
      NextSector(off);
    }
  }

  /** Whatever the entry, a write stays inside the tables and keeps equal copies equal. */
  lemma {:induction false} WriteFrame(d: seq<Sector>, g: Geometry, c: nat, value: nat)
    requires GeometryOk(g, |d|) && InTable(g, c)
    ensures OnlyTables(d, AfterWrite(d, g, c, value), g)
    ensures CopiesEqual(d, g) ==> CopiesEqual(AfterWrite(d, g, c, value), g)
  {
    hide OnlyTables, CopiesEqual, GeometryOk, Store, Put12, Put32, Patch2, Patch4, TornWrite;
    WritePlace(d, g, c);
    Aligned(c);
    var i, o := Offset(g.fatType, c) / SECTOR, Offset(g.fatType, c) % SECTOR;
    var lba := g.reserved + i;
    match g.fatType
    case FAT16 => StoreFrame(d, g, i, Patch2(d[lba], o, value % 0x1_0000));
    case FAT32 =>
      StoreFrame(d, g, i, Patch4(d[lba], o, Put32(d[lba][o], d[lba][o + 1], d[lba][o + 2], d[lba][o + 3], value)));
    case FAT12 =>
      if o + 1 < SECTOR {
        StoreFrame(d, g, i, Patch2(d[lba], o, Put12(d[lba][o], d[lba][o + 1], c % 2 == 1, value)));
      } else {
        TornFrame(d, g, i, c % 2 == 1, value);
      }
  }

  /** Positions of the bytes after `off`, while they stay in its sector. */
  lemma {:induction false} SameSector(off: nat, j: nat, k: nat)
    requires off % SECTOR + j < SECTOR
    ensures (off + j) / SECTOR == off / SECTOR && (off + j) % SECTOR == off % SECTOR + j
    ensures k == off + j <==> k / SECTOR == off / SECTOR && k % SECTOR == off % SECTOR + j
  {
    assert off == SECTOR * (off / SECTOR) + off % SECTOR;
    assert k == SECTOR * (k / SECTOR) + k % SECTOR;
  }

  /** Byte `k` of the table after the bytes `n` have been patched in at `off`, inside one sector. */
  lemma {:induction false} PatchedByte(d: seq<Sector>, base: nat, fatSize: nat, off: nat, s: Sector, count: nat, k: nat)
    requires base + 2 * fatSize <= |d| && off < fatSize * SECTOR && k < fatSize * SECTOR
    requires off % SECTOR + count <= SECTOR
    requires forall x: nat :: x < SECTOR && !(off % SECTOR <= x < off % SECTOR + count) ==>
             s[x] == d[base + off / SECTOR][x]
    ensures base + k / SECTOR < |d|
    ensures ByteAt(Store(d, base + off / SECTOR, fatSize, s), base, k) ==
            if off <= k < off + count then s[k - off + off % SECTOR] else ByteAt(d, base, k)
  {
    StoreByte(d, base, fatSize, off / SECTOR, s, k);
    if off <= k < off + count {
      SameSector(off, k - off, k);
    } else if k / SECTOR == off / SECTOR {
      assert off == SECTOR * (off / SECTOR) + off % SECTOR && k == SECTOR * (off / SECTOR) + k % SECTOR;
      hide Store;
    }
  }

  /** Two-byte and four-byte entries never cross a sector. */
  lemma {:induction false} Aligned(c: nat)
    ensures 2 * c % SECTOR + 2 <= SECTOR && 4 * c % SECTOR + 4 <= SECTOR
  {
    var q, r := c / 256, c % 256;
    assert 2 * c == SECTOR * q + 2 * r;
    var q', r' := c / 128, c % 128;
    assert 4 * c == SECTOR * q' + 4 * r';
  }

  lemma {:induction false} LowWord(value: nat)
    ensures value % 0x1_0000 % 256 == value % 256 && value % 0x1_0000 / 256 % 256 == value / 256 % 256
  {
    var h := value / 0x1_0000;
    var n := value % 0x1_0000;
    assert value == 0x1_0000 * h + n;
    assert value / 256 == 256 * h + n / 256;
  }

  /** A FAT16 write, byte by byte. */
  lemma {:induction false} WriteByte16(d: seq<Sector>, g: Geometry, c: nat, value: nat, k: nat)
    requires GeometryOk(g, |d|) && InTable(g, c) && g.fatType == FAT16 && k < g.fatSize * SECTOR
    ensures Fits(d, g.reserved, FAT16, c) && g.reserved + k / SECTOR < |d|
    ensures ByteAt(AfterWrite(d, g, c, value), g.reserved, k) == NewByte(d, g.reserved, FAT16, c, value, k)
  {
    hide GeometryOk, Store;
    WritePlace(d, g, c);
    EntryFits(d, g, c);
    Aligned(c);
    var off := 2 * c;
    var lba, o := g.reserved + off / SECTOR, off % SECTOR;
    var n := value % 0x1_0000;
    LowWord(value);
    var s := Patch2(d[lba], o, n);
    assert AfterWrite(d, g, c, value) == Store(d, lba, g.fatSize, s);
    assert s[o] == n % 256 && s[o + 1] == n / 256 % 256;
    hide GeometryOk, Store, AfterWrite, Patch2, ByteAt;
    PatchedByte(d, g.reserved, g.fatSize, off, s, 2, k);
  }

  /** A FAT32 write, byte by byte. */
  lemma {:induction false} WriteByte32(d: seq<Sector>, g: Geometry, c: nat, value: nat, k: nat)
    requires GeometryOk(g, |d|) && InTable(g, c) && g.fatType == FAT32 && k < g.fatSize * SECTOR
    ensures Fits(d, g.reserved, FAT32, c) && g.reserved + k / SECTOR < |d|
    ensures ByteAt(AfterWrite(d, g, c, value), g.reserved, k) == NewByte(d, g.reserved, FAT32, c, value, k)
  {
    hide Put32, GeometryOk, Store, NewByte, ByteAt, Patch4;
    WritePlace(d, g, c);
    EntryFits(d, g, c);
    Aligned(c);
    var off := 4 * c;
    var lba, o := g.reserved + off / SECTOR, off % SECTOR;
    var x := d[lba];
    var n := Put32(x[o], x[o + 1], x[o + 2], x[o + 3], value);
    var s := Patch4(x, o, n);
    assert AfterWrite(d, g, c, value) == Store(d, lba, g.fatSize, s);
    PatchedBytes(x, o, n);
    hide AfterWrite;
    PatchedByte(d, g.reserved, g.fatSize, off, s, 4, k);
    NewByte32(d, g.reserved, c, value, k);
  }

  lemma {:induction false} NewByte32(d: seq<Sector>, base: nat, c: nat, value: nat, k: nat)
    requires Fits(d, base, FAT32, c) && base + k / SECTOR < |d|
    requires 4 * c % SECTOR + 4 <= SECTOR
    ensures base + 4 * c / SECTOR < |d|
    ensures var s, o := d[base + 4 * c / SECTOR], 4 * c % SECTOR;
            NewByte(d, base, FAT32, c, value, k) ==
            if 4 * c <= k < 4 * c + 4
            then Patch4(s, o, Put32(s[o], s[o + 1], s[o + 2], s[o + 3], value))[k - 4 * c + o]
            else ByteAt(d, base, k)
  {
    hide Put32, Patch4;
    var off := 4 * c;
    SameSector(off, 1, k);
    SameSector(off, 2, k);
    SameSector(off, 3, k);
    var s, o := d[base + off / SECTOR], off % SECTOR;
    var n := Put32(s[o], s[o + 1], s[o + 2], s[o + 3], value);
    assert n == Put32(ByteAt(d, base, off), ByteAt(d, base, off + 1), ByteAt(d, base, off + 2),
           ByteAt(d, base, off + 3), value);
    PatchedBytes(s, o, n);
    hide ByteAt;
  }

  lemma {:induction false} PatchedBytes(s: Sector, o: nat, n: nat)
    requires o + 4 <= SECTOR
    ensures var p := Patch4(s, o, n);
            && p[o] == n % 256 && p[o + 1] == n / 256 % 256
            && p[o + 2] == n / 256 / 256 % 256 && p[o + 3] == n / 256 / 256 / 256 % 256
            && forall x: nat :: x < SECTOR && !(o <= x < o + 4) ==> p[x] == s[x]
  {}

  /** A FAT12 write inside one sector, byte by byte. */
  lemma {:induction false} WriteByte12(d: seq<Sector>, g: Geometry, c: nat, value: nat, k: nat)
    requires GeometryOk(g, |d|) && InTable(g, c) && g.fatType == FAT12 && k < g.fatSize * SECTOR
    requires !Straddles(FAT12, c)
    ensures Fits(d, g.reserved, FAT12, c) && g.reserved + k / SECTOR < |d|
    ensures ByteAt(AfterWrite(d, g, c, value), g.reserved, k) == NewByte(d, g.reserved, FAT12, c, value, k)
  {
    EntryFits(d, g, c);
    var off := Offset(FAT12, c);
    var lba, o := g.reserved + off / SECTOR, off % SECTOR;
    hide GeometryOk, Store, Put12, Offset, ByteAt, NewByte;
    var n := Put12(d[lba][o], d[lba][o + 1], c % 2 == 1, value);
    var s := Patch2(d[lba], o, n);
    assert AfterWrite(d, g, c, value) == Store(d, lba, g.fatSize, s);
    hide AfterWrite;
    PatchedByte(d, g.reserved, g.fatSize, off, s, 2, k);
    NewByte12(d, g.reserved, c, value, k);
  }

  lemma {:induction false} NewByte12(d: seq<Sector>, base: nat, c: nat, value: nat, k: nat)
    requires Fits(d, base, FAT12, c) && base + k / SECTOR < |d| && !Straddles(FAT12, c)
    ensures base + Offset(FAT12, c) / SECTOR < |d|
    ensures var s, o := d[base + Offset(FAT12, c) / SECTOR], Offset(FAT12, c) % SECTOR;
            NewByte(d, base, FAT12, c, value, k) ==
            if Offset(FAT12, c) <= k < Offset(FAT12, c) + 2
            then Patch2(s, o, Put12(s[o], s[o + 1], c % 2 == 1, value))[k - Offset(FAT12, c) + o]
            else ByteAt(d, base, k)
  {
    var off := Offset(FAT12, c);
    hide Put12, Offset;
    SameSector(off, 1, k);
    var s, o := d[base + off / SECTOR], off % SECTOR;
    var n := Put12(s[o], s[o + 1], c % 2 == 1, value);
    assert n == Put12(ByteAt(d, base, off), ByteAt(d, base, off + 1), c % 2 == 1, value);
    hide ByteAt;
  }

  /** A FAT12 write across two sectors: the first one receives the second one's other bytes. */
  lemma {:induction false} TornByte(d: seq<Sector>, g: Geometry, c: nat, value: nat, k: nat)
    requires GeometryOk(g, |d|) && InTable(g, c) && Straddles(g.fatType, c) && k < g.fatSize * SECTOR
    ensures Fits(d, g.reserved, FAT12, c) && g.reserved + k / SECTOR < |d|
    ensures g.reserved + Offset(FAT12, c) / SECTOR + 1 < |d|
    ensures ByteAt(AfterWrite(d, g, c, value), g.reserved, k) ==
            if k / SECTOR == Offset(FAT12, c) / SECTOR && k % SECTOR < SECTOR - 1
            then d[g.reserved + Offset(FAT12, c) / SECTOR + 1][k % SECTOR]
            else NewByte(d, g.reserved, FAT12, c, value, k)
  {
    hide GeometryOk, Put12, Offset, Store, TornWrite, NewByte, ByteAt;
    EntryFits(d, g, c);
    WritePlace(d, g, c);
    var i := Offset(FAT12, c) / SECTOR;
    NextSector(Offset(FAT12, c));
    assert AfterWrite(d, g, c, value) == TornWrite(d, g.reserved + i, g.fatSize, c % 2 == 1, value);
    hide AfterWrite;
    TornBytes(d, g.reserved, g.fatSize, i, c % 2 == 1, value, k);
    NewByteTorn(d, g.reserved, c, value, k);
  }

  lemma {:induction false} NextSector(off: nat)
    requires off % SECTOR == SECTOR - 1
    ensures (off + 1) / SECTOR == off / SECTOR + 1 && (off + 1) % SECTOR == 0
  {
    assert off + 1 == SECTOR * (off / SECTOR + 1);
  }

  lemma {:induction false} NewByteTorn(d: seq<Sector>, base: nat, c: nat, value: nat, k: nat)
    requires Fits(d, base, FAT12, c) && Straddles(FAT12, c) && base + k / SECTOR < |d|
    ensures base + Offset(FAT12, c) / SECTOR + 1 < |d|
    ensures var i, q, r := Offset(FAT12, c) / SECTOR, k / SECTOR, k % SECTOR;
            var n := Put12(d[base + i][SECTOR - 1], d[base + i + 1][0], c % 2 == 1, value);
            NewByte(d, base, FAT12, c, value, k) ==
            if q == i && r == SECTOR - 1 then n % 256 else if q == i + 1 && r == 0 then n / 256 % 256
              else ByteAt(d, base, k)
  {
    var off := Offset(FAT12, c);
    hide Offset, Put12;
    NextSector(off);
    SameSector(off, 0, k);
    SameSector(off + 1, 0, k);
  }

  lemma {:induction false} TornBytes(d: seq<Sector>, base: nat, fatSize: nat, i: nat, odd: bool, value: nat, k: nat)
    requires base + 2 * fatSize <= |d| && i + 1 < fatSize && k < fatSize * SECTOR
    ensures base + k / SECTOR < |d|
    ensures var n := Put12(d[base + i][SECTOR - 1], d[base + i + 1][0], odd, value);
            var q, r := k / SECTOR, k % SECTOR;
            ByteAt(TornWrite(d, base + i, fatSize, odd, value), base, k) ==
            if q == i then (if r == SECTOR - 1 then n % 256 else d[base + i + 1][r])
            else if q == i + 1 && r == 0 then n / 256 % 256 else ByteAt(d, base, k)
  {
    hide Store, Put12;
    var lba := base + i;
    var n := Put12(d[lba][SECTOR - 1], d[lba + 1][0], odd, value);
    var s := d[lba + 1][SECTOR - 1 := n % 256];
    var d1 := Store(d, lba, fatSize, s);
    StoreByte(d, base, fatSize, i, s, k);
    assert d1[lba + 1] == d[lba + 1] by {
      SecondSectorKept(d, lba, fatSize, s);
    }
    StoreByte(d1, base, fatSize, i + 1, d1[lba + 1][0 := n / 256 % 256], k);
  }

  lemma {:induction false} SecondSectorKept(d: seq<Sector>, lba: nat, fatSize: nat, s: Sector)
    requires lba + 1 < |d| && fatSize > 1
    ensures Store(d, lba, fatSize, s)[lba + 1] == d[lba + 1]
  {}

  /**
   * Writing an entry changes that entry alone if and only if the entry lies in one sector, or
   * the two sectors it straddles already agree on all bytes but the last.
   */
  lemma {:induction false} WriteIsLocalIff(d: seq<Sector>, g: Geometry, c: nat, value: nat)
    requires GeometryOk(g, |d|) && InTable(g, c)
    ensures Fits(d, g.reserved, g.fatType, c)
    ensures EntryWritten(d, AfterWrite(d, g, c, value), g.reserved, g.fatType, c, value, g.fatSize * SECTOR)
            <==> !Straddles(g.fatType, c) || Agree(d, g.reserved + Offset(g.fatType, c) / SECTOR)
  {
    EntryFits(d, g, c);
    if Straddles(g.fatType, c) {
      TornIsLocalIff(d, g, c, value);
    } else {
      var d' := AfterWrite(d, g, c, value);
      hide AfterWrite, GeometryOk, ByteAt, NewByte, Straddles;
      forall k: nat | k < g.fatSize * SECTOR && g.reserved + k / SECTOR < |d|
        ensures ByteAt(d', g.reserved, k) == NewByte(d, g.reserved, g.fatType, c, value, k)
      {
        match g.fatType
        case FAT12 => WriteByte12(d, g, c, value, k);
        case FAT16 => WriteByte16(d, g, c, value, k);
        case FAT32 => WriteByte32(d, g, c, value, k);
      }
    }
  }

  /** Two neighbouring sectors agree on their first 511 bytes. */
  predicate Agree(d: seq<Sector>, lba: nat) {
    lba + 1 < |d| && d[lba][..SECTOR - 1] == d[lba + 1][..SECTOR - 1]
  }

  lemma {:induction false} TornIsLocalIff(d: seq<Sector>, g: Geometry, c: nat, value: nat)
    requires GeometryOk(g, |d|) && InTable(g, c) && Straddles(g.fatType, c)
    ensures Fits(d, g.reserved, FAT12, c)
    ensures EntryWritten(d, AfterWrite(d, g, c, value), g.reserved, FAT12, c, value, g.fatSize * SECTOR)
            <==> Agree(d, g.reserved + Offset(FAT12, c) / SECTOR)
  {
    hide AfterWrite, GeometryOk, Offset, NewByte, ByteAt;
    EntryFits(d, g, c);
    WritePlace(d, g, c);
    var off := Offset(FAT12, c);
    var i := off / SECTOR;
    var lba := g.reserved + i;
    assert off == i * SECTOR + SECTOR - 1;
    var d' := AfterWrite(d, g, c, value);
    var n := g.fatSize * SECTOR;
    if Agree(d, lba) {
      forall k: nat | k < n && g.reserved + k / SECTOR < |d|
        ensures ByteAt(d', g.reserved, k) == NewByte(d, g.reserved, FAT12, c, value, k)
      {
        TornByte(d, g, c, value, k);
        if k / SECTOR == i && k % SECTOR < SECTOR - 1 {
          AgreeingByte(d, g, c, value, k);
        }
      }
    } else {
      var j: nat :| j < SECTOR - 1 && d[lba][j] != d[lba + 1][j];
      var k := i * SECTOR + j;
      assert k / SECTOR == i && k % SECTOR == j;
      TornByte(d, g, c, value, k);
      UntouchedByte(d, g, c, value, k);
      assert ByteAt(d', g.reserved, k) != NewByte(d, g.reserved, FAT12, c, value, k);
    }
  }

  /** A byte of the first sector before its last is not part of the entry. */
  lemma {:induction false} UntouchedByte(d: seq<Sector>, g: Geometry, c: nat, value: nat, k: nat)
    requires Fits(d, g.reserved, FAT12, c) && Straddles(FAT12, c) && g.reserved + k / SECTOR < |d|
    requires k / SECTOR == Offset(FAT12, c) / SECTOR && k % SECTOR < SECTOR - 1
    ensures NewByte(d, g.reserved, FAT12, c, value, k) == d[g.reserved + k / SECTOR][k % SECTOR]
  {
    hide Offset, Put12;
    var off := Offset(FAT12, c);
    assert k == k / SECTOR * SECTOR + k % SECTOR && off == off / SECTOR * SECTOR + off % SECTOR;
  }

  lemma {:induction false} AgreeingByte(d: seq<Sector>, g: Geometry, c: nat, value: nat, k: nat)
    requires Fits(d, g.reserved, FAT12, c) && Straddles(FAT12, c) && g.reserved + k / SECTOR < |d|
    requires k / SECTOR == Offset(FAT12, c) / SECTOR && k % SECTOR < SECTOR - 1 && Agree(d, g.reserved + k / SECTOR)
    ensures NewByte(d, g.reserved, FAT12, c, value, k) == d[g.reserved + k / SECTOR + 1][k % SECTOR]
  {
    hide Offset, NewByte;
    UntouchedByte(d, g, c, value, k);
    var lba, x := g.reserved + k / SECTOR, k % SECTOR;
    assert d[lba][..SECTOR - 1][x] == d[lba + 1][..SECTOR - 1][x];
  }

  /** An entry depends on the sectors of the first table only. */
  lemma {:induction false} SameTableSectors(d: seq<Sector>, d': seq<Sector>, g: Geometry, c: nat)
    requires GeometryOk(g, |d|) && |d'| == |d| && c < g.MaxCluster()
    requires forall l: nat :: g.reserved <= l < g.reserved + g.fatSize ==> d'[l] == d[l]
    ensures Entry(d', g, c) == Entry(d, g, c)
  {
    ValidClusterFits(d, g, c);
    var o, n := Offset(g.fatType, c), Span(g.fatType);
    forall k: nat | o <= k < o + n ensures g.reserved + k / SECTOR < |d|
      && ByteAt(d', g.reserved, k) == ByteAt(d, g.reserved, k) {
      assert k / SECTOR < g.fatSize;
    }
    hide ByteAt, GeometryOk, Get12, Get32, Offset;
    assert ByteAt(d', g.reserved, o) == ByteAt(d, g.reserved, o);
    assert ByteAt(d', g.reserved, o + 1) == ByteAt(d, g.reserved, o + 1);
    if g.fatType == FAT32 {
      assert ByteAt(d', g.reserved, o + 2) == ByteAt(d, g.reserved, o + 2);
      assert ByteAt(d', g.reserved, o + 3) == ByteAt(d, g.reserved, o + 3);
    }
  }

  /** Exactly two clusters in every 1024 straddle. */
  lemma {:induction false} Straddlers(c: nat)
    ensures Straddles(FAT12, c) <==> c % 1024 == 341 || c % 1024 == 682
  {
    var q, r := c / 1024, c % 1024;
    OffsetInBlock(c, q, r);
    LastBytes(r * 3 / 2);
    ThreeHalves(r);
  }

  lemma {:induction false} OffsetInBlock(c: nat, q: nat, r: nat)
    requires c == 1024 * q + r
    ensures c * 3 / 2 % SECTOR == r * 3 / 2 % SECTOR
  {
    assert c * 3 / 2 == 1536 * q + r * 3 / 2;
    WholeSectors(3 * q, r * 3 / 2);
  }

  lemma {:induction false} WholeSectors(n: nat, o: nat)
    ensures (SECTOR * n + o) % SECTOR == o % SECTOR
  {}

  lemma {:induction false} ThreeHalves(r: nat)
    requires r < 1024
    ensures r * 3 / 2 < 1536
    ensures r * 3 / 2 == 511 <==> r == 341
    ensures r * 3 / 2 == 1023 <==> r == 682
    ensures r * 3 / 2 != 1535
  {}

  lemma {:induction false} LastBytes(o: nat)
    requires o < 1536
    ensures o % SECTOR == SECTOR - 1 <==> o == 511 || o == 1023 || o == 1535
  {}

  /** The written entry itself always reads back, torn or not. */
  lemma {:induction false} ReadBack(d: seq<Sector>, g: Geometry, c: nat, value: nat)
    requires GeometryOk(g, |d|) && InTable(g, c)
    ensures Entry(AfterWrite(d, g, c, value), g, c) == value % Values(g.fatType)
  {
    EntryFits(d, g, c);
    if Straddles(g.fatType, c) {
      var d' := AfterWrite(d, g, c, value);
      var off := Offset(FAT12, c);
      NextSector(off);
      Pair12(ByteAt(d, g.reserved, off), ByteAt(d, g.reserved, off + 1), c % 2 == 1, value);
      hide GeometryOk, AfterWrite, ByteAt, Put12, Get12;
      TornByte(d, g, c, value, off);
      TornByte(d, g, c, value, off + 1);
    } else {
      hide GeometryOk, AfterWrite, EntryAt, EntryWritten;
      WriteIsLocalIff(d, g, c, value);
      ReadWritten(d, AfterWrite(d, g, c, value), g.reserved, g.fatType, c, value, g.fatSize * SECTOR);
    }
  }

  /** The bits of table byte `k` that belong to no cluster are the same in both values. */
  predicate SpareBits(g: Geometry, k: nat, b: Byte, b': Byte)
    requires g.sectorsPerCluster > 0 && g.FirstData() <= g.totalSectors
  {
    var n := g.MaxCluster();
    match g.fatType
    case FAT12 => (k >= Offset(FAT12, n - 1) + 2 ==> b' == b)
      && (k == Offset(FAT12, n - 1) + 1 && n % 2 == 1 ==> b' / 16 == b / 16)
    case FAT16 => k >= 2 * n ==> b' == b
    case FAT32 => (k >= 4 * n ==> b' == b) && (k % 4 == 3 ==> b' / 16 == b / 16)
  }

  ghost predicate SpareSame(d: seq<Sector>, d': seq<Sector>, g: Geometry) {
    && GeometryOk(g, |d|) && |d'| == |d|
    && forall k: nat :: k < g.fatSize * SECTOR && g.reserved + k / SECTOR < |d| ==>
         SpareBits(g, k, ByteAt(d, g.reserved, k), ByteAt(d', g.reserved, k))
  }

  lemma {:induction false} SpareSelf(d: seq<Sector>, g: Geometry)
    requires GeometryOk(g, |d|)
    ensures SpareSame(d, d, g)
  {}

  lemma {:induction false} SpareTransitive(d: seq<Sector>, d1: seq<Sector>, d2: seq<Sector>, g: Geometry)
    requires SpareSame(d, d1, g) && SpareSame(d1, d2, g)
    ensures SpareSame(d, d2, g)
  {
    hide GeometryOk, ByteAt;
    BoundExists(g, |d|);
    forall k: nat | k < g.fatSize * SECTOR && g.reserved + k / SECTOR < |d|
      ensures SpareBits(g, k, ByteAt(d, g.reserved, k), ByteAt(d2, g.reserved, k))
    {
      assert SpareBits(g, k, ByteAt(d, g.reserved, k), ByteAt(d1, g.reserved, k));
      assert SpareBits(g, k, ByteAt(d1, g.reserved, k), ByteAt(d2, g.reserved, k));
    }
  }

  /** Same entries, same spare bits and nothing else touched: with two equal copies, the same disk. */
  lemma {:induction false} SameTableSameDisk(d: seq<Sector>, d': seq<Sector>, g: Geometry)
    requires SpareSame(d, d', g) && Table(d', g) == Table(d, g) && OnlyTables(d, d', g)
    requires CopiesEqual(d, g) && CopiesEqual(d', g)
    ensures d' == d
  {
    forall l: nat | g.reserved <= l < g.reserved + g.fatSize ensures d'[l] == d[l] {
      SameSectors(d, d', g, l - g.reserved);
    }
    forall l: nat | l < |d| ensures d'[l] == d[l] {
      if g.reserved + g.fatSize <= l < g.reserved + 2 * g.fatSize {
        assert d'[l - g.fatSize] == d'[l - g.fatSize + g.fatSize] && d[l - g.fatSize] == d[l - g.fatSize + g.fatSize];
      }
    }
  }

  lemma {:induction false} SameSectors(d: seq<Sector>, d': seq<Sector>, g: Geometry, i: nat)
    requires SpareSame(d, d', g) && Table(d', g) == Table(d, g) && i < g.fatSize
    ensures d'[g.reserved + i] == d[g.reserved + i]
  {
    var lba := g.reserved + i;
    assert |d'| == |d| && lba < |d|;
    hide SpareSame, Table, GeometryOk;
    forall x: nat | x < SECTOR ensures d'[lba][x] == d[lba][x] {
      var k := i * SECTOR + x;
      assert k / SECTOR == i && k % SECTOR == x && k < g.fatSize * SECTOR;
      BytesFromEntries(d, d', g, k);
    }
  }

  lemma {:induction false} WriteSparesOthers(d: seq<Sector>, d': seq<Sector>, g: Geometry, c: nat, value: nat)
    requires GeometryOk(g, |d|) && c < g.MaxCluster()
    requires EntryWritten(d, d', g.reserved, g.fatType, c, value, g.fatSize * SECTOR)
    ensures SpareSame(d, d', g)
  {
    forall k: nat | k < g.fatSize * SECTOR && g.reserved + k / SECTOR < |d|
      ensures SpareBits(g, k, ByteAt(d, g.reserved, k), ByteAt(d', g.reserved, k))
    {
      assert ByteAt(d', g.reserved, k) == NewByte(d, g.reserved, g.fatType, c, value, k);
      NewByteSpares(d, g, c, value, k);
    }
  }

  lemma {:induction false} NewByteSpares(d: seq<Sector>, g: Geometry, c: nat, value: nat, k: nat)
    requires GeometryOk(g, |d|) && c < g.MaxCluster() && Fits(d, g.reserved, g.fatType, c)
             && g.reserved + k / SECTOR < |d|
    ensures SpareBits(g, k, ByteAt(d, g.reserved, k), NewByte(d, g.reserved, g.fatType, c, value, k))
  {
    hide ByteAt, Put12, Put32, Get12, Get32, GeometryOk;
    BoundExists(g, |d|);
    var o, b := Offset(g.fatType, c), g.reserved;
    match g.fatType
    case FAT12 => NewByteSpares12(d, g, c, value, k);
    case FAT16 =>
    case FAT32 =>
      Quad32(ByteAt(d, b, o), ByteAt(d, b, o + 1), ByteAt(d, b, o + 2), ByteAt(d, b, o + 3), value);
  }

  lemma {:induction false} BoundExists(g: Geometry, n: nat)
    requires GeometryOk(g, n)
    ensures g.sectorsPerCluster > 0 && g.FirstData() <= g.totalSectors && g.MaxCluster() >= 2
  {}

  lemma {:induction false} NewByteSpares12(d: seq<Sector>, g: Geometry, c: nat, value: nat, k: nat)
    requires g.sectorsPerCluster > 0 && g.FirstData() <= g.totalSectors && g.fatType == FAT12
    requires c < g.MaxCluster() && Fits(d, g.reserved, FAT12, c) && g.reserved + k / SECTOR < |d|
    ensures SpareBits(g, k, ByteAt(d, g.reserved, k), NewByte(d, g.reserved, FAT12, c, value, k))
  {
    hide ByteAt, Put12, Get12, Offset;
    var o, b, last := Offset(FAT12, c), g.reserved, g.MaxCluster() - 1;
    Pair12(ByteAt(d, b, o), ByteAt(d, b, o + 1), c % 2 == 1, value);
    LastEntry12(last, c);
  }

  lemma {:induction false} LastEntry12(last: nat, c: nat)
    requires c <= last
    ensures Offset(FAT12, c) <= Offset(FAT12, last)
    ensures c < last ==> Offset(FAT12, c) + 1 <= Offset(FAT12, last)
  {}

  /** The entries and the spare bits make up every byte of the table. */
  lemma {:induction false} BytesFromEntries(d: seq<Sector>, d': seq<Sector>, g: Geometry, k: nat)
    requires SpareSame(d, d', g) && Table(d', g) == Table(d, g) && k < g.fatSize * SECTOR
    ensures g.reserved + k / SECTOR < |d| && ByteAt(d', g.reserved, k) == ByteAt(d, g.reserved, k)
  {
    assert g.reserved + k / SECTOR < |d| by {
      assert k / SECTOR < g.fatSize;
    }
    hide GeometryOk, ByteAt, Table, SpareBits;
    assert SpareBits(g, k, ByteAt(d, g.reserved, k), ByteAt(d', g.reserved, k));
    match g.fatType
    case FAT12 => Bytes12FromEntries(d, d', g, k);
    case FAT16 => Bytes16FromEntries(d, d', g, k);
    case FAT32 => Bytes32FromEntries(d, d', g, k);
  }

  lemma {:induction false} Bytes16FromEntries(d: seq<Sector>, d': seq<Sector>, g: Geometry, k: nat)
    requires GeometryOk(g, |d|) && |d'| == |d| && Table(d', g) == Table(d, g) && g.fatType == FAT16
             && g.reserved + k / SECTOR < |d|
    requires SpareBits(g, k, ByteAt(d, g.reserved, k), ByteAt(d', g.reserved, k))
    ensures ByteAt(d', g.reserved, k) == ByteAt(d, g.reserved, k)
  {
    hide GeometryOk, ByteAt, Table;
    BoundExists(g, |d|);
    if k / 2 < g.MaxCluster() {
      SameEntry(d, d', g, k / 2);
    }
  }

  lemma {:induction false} Bytes32FromEntries(d: seq<Sector>, d': seq<Sector>, g: Geometry, k: nat)
    requires GeometryOk(g, |d|) && |d'| == |d| && Table(d', g) == Table(d, g) && g.fatType == FAT32
             && g.reserved + k / SECTOR < |d|
    requires SpareBits(g, k, ByteAt(d, g.reserved, k), ByteAt(d', g.reserved, k))
    ensures ByteAt(d', g.reserved, k) == ByteAt(d, g.reserved, k)
  {
    hide GeometryOk, ByteAt, Table, Get32;
    BoundExists(g, |d|);
    var c := k / 4;
    if c < g.MaxCluster() {
      SameEntry(d, d', g, c);
      var o := 4 * c;
      SameQuad(
        ByteAt(d, g.reserved, o), ByteAt(d, g.reserved, o + 1),
        ByteAt(d, g.reserved, o + 2), ByteAt(d, g.reserved, o + 3),
        ByteAt(d', g.reserved, o), ByteAt(d', g.reserved, o + 1),
        ByteAt(d', g.reserved, o + 2), ByteAt(d', g.reserved, o + 3));
    }
  }

  /** A FAT32 entry fixes three bytes and the low nibble of the fourth. */
  lemma {:induction false} SameQuad(a0: Byte, a1: Byte, a2: Byte, a3: Byte, b0: Byte, b1: Byte, b2: Byte, b3: Byte)
    requires Get32(a0, a1, a2, a3) == Get32(b0, b1, b2, b3)
    ensures a0 == b0 && a1 == b1 && a2 == b2 && (a3 / 16 == b3 / 16 ==> a3 == b3)
  {
    hide Get32;
    LowQuad(a0, a1, a2, a3);
    LowQuad(b0, b1, b2, b3);
    SameDigits(a0, a1, a2, a3 % 16, b0, b1, b2, b3 % 16);
    SameHalves(a3, b3);
  }

  lemma {:induction false} SameDigits(a0: nat, a1: nat, a2: nat, a3: nat, b0: nat, b1: nat, b2: nat, b3: nat)
    requires a0 < 256 && a1 < 256 && a2 < 256 && b0 < 256 && b1 < 256 && b2 < 256
    requires a0 + 0x100 * a1 + 0x1_0000 * a2 + 0x100_0000 * a3 == b0 + 0x100 * b1 + 0x1_0000 * b2 + 0x100_0000 * b3
    ensures a0 == b0 && a1 == b1 && a2 == b2 && a3 == b3
  {
    var u, v := a1 + 0x100 * a2 + 0x1_0000 * a3, b1 + 0x100 * b2 + 0x1_0000 * b3;
    assert a0 + 256 * u == b0 + 256 * v;
    assert u == v && a0 == b0;
    var u', v' := a2 + 0x100 * a3, b2 + 0x100 * b3;
    assert a1 + 256 * u' == b1 + 256 * v';
    assert u' == v' && a1 == b1;
  }

  lemma {:induction false} LowQuad(b0: Byte, b1: Byte, b2: Byte, b3: Byte)
    ensures Get32(b0, b1, b2, b3) == b0 + 0x100 * b1 + 0x1_0000 * b2 + 0x100_0000 * (b3 % 16)
  {
    var h, l := b3 / 16, b3 % 16;
    assert b3 == 16 * h + l;
    var low := b0 + 0x100 * b1 + 0x1_0000 * b2 + 0x100_0000 * l;
    assert b0 + 0x100 * b1 + 0x1_0000 * b2 + 0x100_0000 * b3 == 0x1000_0000 * h + low && low < 0x1000_0000;
  }

  /** Where entries are and how they are packed: two FAT12 entries share three bytes, the first the low twelve bits;
      FAT16 entries are two bytes, FAT32 entries the low 28 bits of four, lowest byte first. */
  lemma {:induction false} EntryFormats(d: seq<Sector>, base: nat, c: nat)
    requires base + (4 * c + 3) / SECTOR < |d|
    ensures base + (3 * c + 2) / SECTOR < |d| && base + (2 * c + 1) / SECTOR < |d|
    ensures Fits(d, base, FAT12, 2 * c + 1) && Fits(d, base, FAT12, 2 * c) && Fits(d, base, FAT16, c)
            && Fits(d, base, FAT32, c)
    ensures EntryAt(d, base, FAT12, 2 * c) == ByteAt(d, base, 3 * c) + 256 * (ByteAt(d, base, 3 * c + 1) % 16)
    ensures EntryAt(d, base, FAT12, 2 * c + 1) == ByteAt(d, base, 3 * c + 1) / 16 + 16 * ByteAt(d, base, 3 * c + 2)
    ensures EntryAt(d, base, FAT16, c) == ByteAt(d, base, 2 * c) + 256 * ByteAt(d, base, 2 * c + 1)
    ensures EntryAt(d, base, FAT32, c) ==
            ByteAt(d, base, 4 * c) + 0x100 * ByteAt(d, base, 4 * c + 1) + 0x1_0000 * ByteAt(d, base, 4 * c + 2)
            + 0x100_0000 * (ByteAt(d, base, 4 * c + 3) % 16)
  {
    hide ByteAt, Get12, Get32, Offset;
    OffsetIs12(2 * c);
    OffsetIs12(2 * c + 1);
    OffsetIs32(c);
    assert (2 * c) % 2 == 0 && (2 * c + 1) % 2 == 1;
    Nibbles(ByteAt(d, base, 3 * c), ByteAt(d, base, 3 * c + 1));
    Nibbles(ByteAt(d, base, 3 * c + 1), ByteAt(d, base, 3 * c + 2));
    LowQuad(ByteAt(d, base, 4 * c), ByteAt(d, base, 4 * c + 1), ByteAt(d, base, 4 * c + 2), ByteAt(d, base, 4 * c + 3));
  }

  lemma {:induction false} OffsetIs32(c: nat)
    ensures Offset(FAT16, c) == 2 * c && Offset(FAT32, c) == 4 * c
  {}

  lemma {:induction false} Bytes12FromEntries(d: seq<Sector>, d': seq<Sector>, g: Geometry, k: nat)
    requires GeometryOk(g, |d|) && |d'| == |d| && Table(d', g) == Table(d, g) && g.fatType == FAT12
             && g.reserved + k / SECTOR < |d|
    requires SpareBits(g, k, ByteAt(d, g.reserved, k), ByteAt(d', g.reserved, k))
    ensures ByteAt(d', g.reserved, k) == ByteAt(d, g.reserved, k)
  {
    hide ByteAt, EntryAt, Fits, GeometryOk, SpareBits, Table;
    BoundExists(g, |d|);
    var m, r, n := k / 3, k % 3, g.MaxCluster();
    assert k == 3 * m + r;
    if r < 2 && 2 * m < n {
      SameEntry(d, d', g, 2 * m);
      SameEven(d, d', g.reserved, m);
    }
    if r > 0 && 2 * m + 1 < n {
      SameEntry(d, d', g, 2 * m + 1);
      SameOdd(d, d', g.reserved, m);
    }
    Spare12(g, k, ByteAt(d, g.reserved, k), ByteAt(d', g.reserved, k));
    SameHalves(ByteAt(d, g.reserved, k), ByteAt(d', g.reserved, k));
  }

  /** An unchanged FAT12 entry fixes one byte and a nibble. */
  lemma {:induction false} SameEven(d: seq<Sector>, d': seq<Sector>, base: nat, m: nat)
    requires Fits(d, base, FAT12, 2 * m) && Fits(d', base, FAT12, 2 * m)
    requires EntryAt(d', base, FAT12, 2 * m) == EntryAt(d, base, FAT12, 2 * m)
    ensures base + (3 * m + 1) / SECTOR < |d| && base + (3 * m + 1) / SECTOR < |d'|
    ensures ByteAt(d', base, 3 * m) == ByteAt(d, base, 3 * m)
    ensures ByteAt(d', base, 3 * m + 1) % 16 == ByteAt(d, base, 3 * m + 1) % 16
  {
    hide ByteAt, Get12, Offset;
    OffsetIs12(2 * m);
    assert Offset(FAT12, 2 * m) == 3 * m;
    SamePair(ByteAt(d, base, 3 * m), ByteAt(d, base, 3 * m + 1), ByteAt(d', base, 3 * m), ByteAt(d', base, 3 * m + 1));
  }

  lemma {:induction false} SamePair(a0: Byte, a1: Byte, b0: Byte, b1: Byte)
    ensures Get12(a0, a1, false) == Get12(b0, b1, false) ==> a0 == b0 && a1 % 16 == b1 % 16
    ensures Get12(a0, a1, true) == Get12(b0, b1, true) ==> a0 / 16 == b0 / 16 && a1 == b1
  {
    hide Get12;
    Nibbles(a0, a1);
    Nibbles(b0, b1);
  }

  lemma {:induction false} SameOdd(d: seq<Sector>, d': seq<Sector>, base: nat, m: nat)
    requires Fits(d, base, FAT12, 2 * m + 1) && Fits(d', base, FAT12, 2 * m + 1)
    requires EntryAt(d', base, FAT12, 2 * m + 1) == EntryAt(d, base, FAT12, 2 * m + 1)
    ensures base + (3 * m + 2) / SECTOR < |d| && base + (3 * m + 2) / SECTOR < |d'|
    ensures ByteAt(d', base, 3 * m + 1) / 16 == ByteAt(d, base, 3 * m + 1) / 16
    ensures ByteAt(d', base, 3 * m + 2) == ByteAt(d, base, 3 * m + 2)
  {
    hide ByteAt, Get12, Offset;
    OffsetIs12(2 * m + 1);
    assert Offset(FAT12, 2 * m + 1) == 3 * m + 1;
    assert (2 * m + 1) % 2 == 1;
    SamePair(ByteAt(d, base, 3 * m + 1), ByteAt(d, base, 3 * m + 2), ByteAt(d', base, 3 * m + 1),
      ByteAt(d', base, 3 * m + 2));
  }

  lemma {:induction false} Spare12(g: Geometry, k: nat, b: Byte, b': Byte)
    requires g.sectorsPerCluster > 0 && g.FirstData() <= g.totalSectors && g.fatType == FAT12
    requires SpareBits(g, k, b, b')
    ensures var m, r, n := k / 3, k % 3, g.MaxCluster();
            && (r < 2 && 2 * m >= n ==> b' == b)
            && (r == 2 && 2 * m + 1 >= n ==> b' == b)
            && (r == 1 && 2 * m + 1 >= n ==> b' / 16 == b / 16)
  {
    hide Offset;
    var m, r, n := k / 3, k % 3, g.MaxCluster();
    assert k == 3 * m + r;
    if n > 0 {
      LastOffset12(n - 1, m);
    }
  }

  lemma {:induction false} LastOffset12(last: nat, m: nat)
    ensures last < 2 * m ==> Offset(FAT12, last) + 2 <= 3 * m
    ensures last == 2 * m ==> Offset(FAT12, last) == 3 * m
  {
    if last < 2 * m {
      assert last * 3 <= 6 * m - 3;
    }
  }

  lemma {:induction false} SameHalves(b: Byte, b': Byte)
    ensures b / 16 == b' / 16 && b % 16 == b' % 16 ==> b == b'
  {}

  lemma {:induction false} SameEntry(d: seq<Sector>, d': seq<Sector>, g: Geometry, c: nat)
    requires GeometryOk(g, |d|) && |d'| == |d| && Table(d', g) == Table(d, g) && c < g.MaxCluster()
    ensures Fits(d, g.reserved, g.fatType, c) && Fits(d', g.reserved, g.fatType, c)
    ensures EntryAt(d', g.reserved, g.fatType, c) == EntryAt(d, g.reserved, g.fatType, c)
  {
    ValidClusterFits(d, g, c);
    hide GeometryOk, EntryAt;
    assert Table(d', g)[c] == Entry(d', g, c) && Table(d, g)[c] == Entry(d, g, c);
  }

  /** Where every valid cluster has its entry in one sector, the driver's writes are always local. */
  predicate Untorn(g: Geometry)
    requires g.sectorsPerCluster > 0 && g.FirstData() <= g.totalSectors
  {
    g.fatType != FAT12 || g.MaxCluster() <= 341
  }

  lemma {:induction false} UntornIsLocal(d: seq<Sector>, g: Geometry, c: nat, value: nat)
    requires GeometryOk(g, |d|) && c < g.MaxCluster() && Untorn(g)
    ensures Table(AfterWrite(d, g, c, value), g) == Table(d, g)[c := value % Values(g.fatType)]
  {
    assert !Straddles(g.fatType, c) by {
      Straddlers(c);
    }
    hide AfterWrite, EntryWritten, GeometryOk, Straddles;
    WriteIsLocalIff(d, g, c, value);
    TableAfterWrite(d, AfterWrite(d, g, c, value), g, c, value);
  }

  function EmptyDisk(n: nat): (d: seq<Sector>)
    ensures |d| == n
  {
    seq(n, _ => EmptySector())
  }

  lemma {:induction false} EmptyEntry(d: seq<Sector>, g: Geometry, c: nat)
    requires !Straddles(g.fatType, c)
    requires g.reserved + Offset(g.fatType, c) / SECTOR < |d|
             && d[g.reserved + Offset(g.fatType, c) / SECTOR] == EmptySector()
    ensures Entry(d, g, c) == 0
  {
    var off := Offset(g.fatType, c);
    Aligned(c);
    match g.fatType
    case FAT12 => SameSector(off, 1, 0);
    case FAT16 => SameSector(off, 1, 0);
    case FAT32 =>
      SameSector(off, 1, 0);
      SameSector(off, 2, 0);
      SameSector(off, 3, 0);
  }

  /** A table with clusters up to 340 in use and none after them. */
  function FullSector(): Sector {
    seq(SECTOR, k => if k < SECTOR - 1 then 0x11 else 0x01)
  }

  function EmptySector(): Sector {
    seq(SECTOR, _ => 0)
  }

  function TornSector(reserved: nat, l: int): Sector {
    if l == reserved then FullSector() else EmptySector()
  }

  function TornDisk(reserved: nat, n: nat): (d: seq<Sector>)
    ensures |d| == n
  {
    seq(n, l => TornSector(reserved, l))
  }

  lemma {:induction false} TornDiskEntries(g: Geometry, n: nat, c: nat)
    requires GeometryOk(g, n) && !Untorn(g) && 2 <= c <= 341
    ensures Entry(TornDisk(g.reserved, n), g, c) == 0 <==> c == 341
  {
    hide GeometryOk, Offset;
    var d := TornDisk(g.reserved, n);
    BoundExists(g, n);
    ValidClusterFits(d, g, c);
    OffsetIs12(c);
    ValidClusterFits(d, g, 341);
    WritePlace(d, g, 341);
    OffsetIs12(341);
    var o := Offset(FAT12, c);
    assert o <= 511 && (c == 341 ==> o == 511) && (c < 341 ==> o < 511);
    TornDiskByte(d, g.reserved, n, o);
    TornDiskByte(d, g.reserved, n, o + 1);
    hide ByteAt, Get12;
    Nibbles(ByteAt(d, g.reserved, o), ByteAt(d, g.reserved, o + 1));
  }

  lemma {:induction false} TornDiskByte(d: seq<Sector>, reserved: nat, n: nat, k: nat)
    requires d == TornDisk(reserved, n) && k <= 512 && reserved + 1 < n
    ensures ByteAt(d, reserved, k) == if k < 511 then 0x11 else if k == 511 then 0x01 else 0
  {
    assert d[reserved] == FullSector() && d[reserved + 1] == EmptySector();
    if k < 512 {
      assert k / SECTOR == 0 && k % SECTOR == k;
    }
  }

  /** On any larger FAT12 volume there is a disk on which a write frees somebody else's cluster. */
  lemma {:induction false} TornFreesAnother(g: Geometry, n: nat, value: nat)
    requires GeometryOk(g, n) && !Untorn(g)
    ensures var d := TornDisk(g.reserved, n);
            Entry(d, g, 2) != 0 && Entry(AfterWrite(d, g, 341, value), g, 2) == 0
  {
    hide AfterWrite, GeometryOk, Entry;
    var d := TornDisk(g.reserved, n);
    TornDiskEntries(g, n, 2);
    Straddlers(341);
    ValidClusterFits(d, g, 341);
    WritePlace(d, g, 341);
    assert d[g.reserved + 1] == EmptySector();
    FirstSectorTorn(d, g, value);
  }

  /** Cluster 2 receives the bytes at the same place of the second table sector. */
  lemma {:induction false} FirstSectorTorn(d: seq<Sector>, g: Geometry, value: nat)
    requires GeometryOk(g, |d|) && !Untorn(g) && Straddles(FAT12, 341) && g.reserved + 1 < |d|
    requires d[g.reserved + 1][3] == d[g.reserved + 1][4] == 0
    ensures Entry(AfterWrite(d, g, 341, value), g, 2) == 0
  {
    hide AfterWrite, Straddles;
    ValidClusterFits(d, g, 2);
    ValidClusterFits(d, g, 341);
    var d' := AfterWrite(d, g, 341, value);
    TornByte(d, g, 341, value, 3);
    TornByte(d, g, 341, value, 4);
    assert ByteAt(d', g.reserved, 3) == 0 && ByteAt(d', g.reserved, 4) == 0;
    hide ByteAt;
  }

  class Fat {
    const g: Geometry
    const disk: array<Sector>
    var buffer: Sector

    constructor (g: Geometry, disk: array<Sector>)
      ensures this.g == g && this.disk == disk
    {
      this.g, this.disk := g, disk;
      buffer := seq(SECTOR, _ => 0);
    }

    /** fs/fat.c:17-22 on a device that fails exactly outside its sectors. */
    method DevRead(lba: nat) returns (ok: bool)
      modifies this`buffer
      ensures ok <==> lba < disk.Length
      ensures buffer == if ok then disk[lba] else old(buffer)
    {
      ok := lba < disk.Length;
      if ok {
        buffer := disk[lba];
      }
    }

    method DevWrite(lba: nat) returns (ok: bool)
      modifies disk
      ensures ok <==> lba < disk.Length
      ensures disk[..] == if ok then old(disk[..])[lba := buffer] else old(disk[..])
    {
      ok := lba < disk.Length;
      if ok {
        disk[lba] := buffer;
      }
    }

    /** fs/fat.c:26-62. */
    method ReadFatEntry(cluster: nat) returns (e: nat)
      modifies this`buffer
      ensures e == Entry(disk[..], g, cluster)
    {
      match g.fatType {
        case FAT12 => e := ReadEntry12(cluster);
        case FAT16 => e := ReadEntry16(cluster);
        case FAT32 => e := ReadEntry32(cluster);
      }
    }

    method ReadEntry12(cluster: nat) returns (e: nat)
      requires g.fatType == FAT12
      modifies this`buffer
      ensures e == Entry(disk[..], g, cluster)
    {
      hide Get12;
      ghost var d := disk[..];
      var fatOffset := cluster * 3 / 2;
      var byteOff, fatSector := fatOffset % SECTOR, g.reserved + fatOffset / SECTOR;
      var b0, b1: Byte;
      if byteOff + 1 < SECTOR {
        SameSector(fatOffset, 1, 0);
        var ok := DevRead(fatSector);
        if !ok {
          return 0xFFF_FFFF;
        }
        b0, b1 := buffer[byteOff], buffer[byteOff + 1];
      } else {
        NextSector(fatOffset);
        var ok := DevRead(fatSector);
        if !ok {
          return 0xFFF_FFFF;
        }
        b0 := buffer[byteOff];
        ok := DevRead(fatSector + 1);
        if !ok {
          return 0xFFF_FFFF;
        }
        b1 := buffer[0];
      }
      assert b0 == ByteAt(d, g.reserved, fatOffset) && b1 == ByteAt(d, g.reserved, fatOffset + 1);
      e := Get12(b0, b1, cluster % 2 == 1);
    }

    method ReadEntry16(cluster: nat) returns (e: nat)
      requires g.fatType == FAT16
      modifies this`buffer
      ensures e == Entry(disk[..], g, cluster)
    {
      var fatOffset: nat := cluster * 2;
      Aligned(cluster);
      SameSector(fatOffset, 1, 0);
      var ok := DevRead(g.reserved + fatOffset / SECTOR);
      if !ok {
        return 0xFFFF;
      }
      var low: nat, high: nat := buffer[fatOffset % SECTOR], buffer[fatOffset % SECTOR + 1];
      e := low + 256 * high;
    }

    method ReadEntry32(cluster: nat) returns (e: nat)
      requires g.fatType == FAT32
      modifies this`buffer
      ensures e == Entry(disk[..], g, cluster)
    {
      hide Get32;
      var fatOffset: nat := cluster * 4;
      Aligned(cluster);
      SameSector(fatOffset, 1, 0);
      SameSector(fatOffset, 2, 0);
      SameSector(fatOffset, 3, 0);
      var ok := DevRead(g.reserved + fatOffset / SECTOR);
      if !ok {
        return 0xFFF_FFFF;
      }
      var o := fatOffset % SECTOR;
      e := Get32(buffer[o], buffer[o + 1], buffer[o + 2], buffer[o + 3]);
    }

    /** Both copies of a table sector receive the buffer. */
    method StoreBuffer(lba: nat)
      modifies disk
      ensures disk[..] == Store(old(disk[..]), lba, g.fatSize, buffer)
    {
      var _ := DevWrite(lba);
      var _ := DevWrite(lba + g.fatSize);
    }

    /** fs/fat.c:313-376. */
    method WriteFatEntry(cluster: nat, value: nat)
      modifies this`buffer, disk
      ensures disk[..] == AfterWrite(old(disk[..]), g, cluster, value)
    {
      match g.fatType {
        case FAT16 =>
          Aligned(cluster);
          var fatOffset: nat := cluster * 2;
          var lba, o := g.reserved + fatOffset / SECTOR, fatOffset % SECTOR;
          var ok := DevRead(lba);
          if ok {
            buffer := Patch2(buffer, o, value % 0x1_0000);
            StoreBuffer(lba);
          }
        case FAT32 =>
          Aligned(cluster);
          var fatOffset: nat := cluster * 4;
          var lba, o := g.reserved + fatOffset / SECTOR, fatOffset % SECTOR;
          var ok := DevRead(lba);
          if ok {
            buffer := Patch4(buffer, o, Put32(buffer[o], buffer[o + 1], buffer[o + 2], buffer[o + 3], value));
            StoreBuffer(lba);
          }
        case FAT12 => WriteEntry12(cluster, value);
      }
    }

    method WriteEntry12(cluster: nat, value: nat)
      requires g.fatType == FAT12
      modifies this`buffer, disk
      ensures disk[..] == AfterWrite(old(disk[..]), g, cluster, value)
    {
      hide Put12, Store;
      var fatOffset := cluster * 3 / 2;
      var lba, o := g.reserved + fatOffset / SECTOR, fatOffset % SECTOR;
      var ok := DevRead(lba);
      if !ok {
        return;
      }
      if o + 1 < SECTOR {
        buffer := Patch2(buffer, o, Put12(buffer[o], buffer[o + 1], cluster % 2 == 1, value));
        StoreBuffer(lba);
      } else {
        var b0 := buffer[o];
        ok := DevRead(lba + 1);
        if !ok {
          return;
        }
        var n := Put12(b0, buffer[0], cluster % 2 == 1, value);
        buffer := buffer[o := n % 256];
        StoreBuffer(lba);
        ok := DevRead(lba + 1);
        buffer := buffer[0 := n / 256 % 256];
        StoreBuffer(lba + 1);
      }
    }
  }
}
