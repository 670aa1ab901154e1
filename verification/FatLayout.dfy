/** Formatting a partition and mounting it again: the size of the tables, what is written where,
    and the empty file system the mounted volume holds. */
module FatLayout {
  import opened Bytes
  import opened FatChains
  import opened Geometry
  import opened Volumes
  import opened FatFiles
  import opened DirModel
  import opened Directories
  import opened FileSystem

  // ---- the size of the tables ----

  /** Sectors per table, in the formatter's 32-bit arithmetic. */
  function FormatFatSize(sc: u32): u32 {
    ((sc - 32) % 0x1_0000_0000 + 2049) % 0x1_0000_0000 / 2050
  }

  function Formatted(start: u32, sc: u32): Geometry {
    Geometry(start, 32, FormatFatSize(sc), 2, 8, 2)
  }

  /** Cluster `c` lies past both tables and inside the partition, as the driver computes it. */
  ghost predicate ClusterFits(start: u32, sc: u32, c: nat) {
    && start + 32 + 2 * FormatFatSize(sc) <= Formatted(start, sc).ClusterToLba(c)
    && Formatted(start, sc).ClusterToLba(c) + 8 <= start + sc
  }

  /** There is a cluster for the root, and every cluster the allocator can return fits. */
  ghost predicate LayoutFits(start: u32, sc: u32) {
    && 2 < Formatted(start, sc).Clusters()
    && forall c {:trigger ClusterFits(start, sc, c)} | 2 <= c < Formatted(start, sc).Clusters() ::
       ClusterFits(start, sc, c)
  }

  const MIN_SECTORS := 1042
  const MAX_SECTORS := 67172382

  lemma FatSizeBounds(sc: u32)
    ensures var n := FormatFatSize(sc);
            && (32 < sc <= 0x1_0000_0000 - 2018 ==> 2050 * (n - 1) < sc - 32 <= 2050 * n)
            && (!(32 < sc <= 0x1_0000_0000 - 2018) ==> n == 0)
  {
  }

  /** Exactly which partition sizes the formatter and the driver handle between them. */
  lemma LayoutGood(start: u32, sc: u32)
    requires start + sc <= 0x1_0000_0000
    ensures LayoutFits(start, sc) <==> MIN_SECTORS <= sc <= MAX_SECTORS
  {
    var g := Formatted(start, sc);
    var n := FormatFatSize(sc);
    FatSizeBounds(sc);
    if MIN_SECTORS <= sc <= MAX_SECTORS {
      forall c | 2 <= c < g.Clusters() ensures ClusterFits(start, sc, c) {
        assert 1 <= n <= 32767;
      }
    } else if n > 0 {
      var last := g.Clusters() - 1;
      if n > 32767 {
        assert (n * 2) % 0x1_0000 <= n * 2 - 0x1_0000;
        assert !ClusterFits(start, sc, 2);
      } else {
        assert n == 1;
        assert !ClusterFits(start, sc, last);
      }
    }
  }

  /** On those sizes distinct clusters lie in disjoint runs of sectors. */
  lemma ClustersApart(start: u32, sc: u32, c: nat, d: nat)
    requires start + sc <= 0x1_0000_0000 && MIN_SECTORS <= sc <= MAX_SECTORS
    requires 2 <= c < d < Formatted(start, sc).Clusters()
    ensures Formatted(start, sc).ClusterToLba(c) + 8 <= Formatted(start, sc).ClusterToLba(d)
  {
    LbaIs(start, sc, c, FormatFatSize(sc));
    LbaIs(start, sc, d, FormatFatSize(sc));
  }

  lemma LbaIs(start: u32, sc: u32, c: nat, n: nat)
    requires start + sc <= 0x1_0000_0000 && MIN_SECTORS <= sc <= MAX_SECTORS && n == FormatFatSize(sc)
    requires 2 <= c < Formatted(start, sc).Clusters()
    ensures Formatted(start, sc).ClusterToLba(c) == start + 32 + 2 * n + 8 * (c - 2)
  {
    FatSizeBounds(sc);
    assert 1 <= n <= 32767 && c < n * 128;
    SmallMod(n * 2, 0x1_0000);
    SmallMod(start + 32 + n * 2 + (c - 2) * 8, 0x1_0000_0000);
  }

  lemma FormattedGood(start: u32, sc: u32, sectors: nat)
    requires MIN_SECTORS <= sc <= MAX_SECTORS && start + sc <= sectors < 0x1_0000_0000
    ensures Formatted(start, sc).Good(sectors) && Formatted(start, sc).DataStart() == start + 32 + 2 * FormatFatSize(sc)
    ensures Formatted(start, sc).ClusterStart(2) == start + 32 + 2 * FormatFatSize(sc)
  {
    var g := Formatted(start, sc);
    FatSizeBounds(sc);
    RepeatIsProduct(g.fatSize, 2);
    RepeatIsProduct(8, g.Clusters() - 2);
  }

  // ---- the sectors the formatter fills in ----

  const FS_TYPE: seq<byte> := [70, 65, 84, 51, 50, 32, 32, 32]   // "FAT32   "
  const OEM: seq<byte> := [69, 77, 69, 88, 79, 83, 32, 32]       // "EMEXOS  "

  /** The first 36 bytes of the boot sector, shared by all FAT types: jump, name, geometry. */
  function Bpb(start: u32, sc: u32): (s: seq<byte>)
    ensures |s| == 36
  {
    [0xEB, 0x58, 0x90] + OEM + Le16(512) + [8] + Le16(32) + [2]
    + (Le16(0) + Le16(0) + [0xF8] + Le16(0) + Le16(63) + Le16(255) + Le32(start) + Le32(sc))
  }

  /** The FAT32 part up to the reserved bytes: table size, flags, version, root, FSInfo, backup. */
  function Ext(sc: u32): (s: seq<byte>)
    ensures |s| == 28
  {
    Le32(FormatFatSize(sc)) + Le16(0) + Le16(0) + Le32(2) + Le16(1) + Le16(6) + Zeros(12)
  }

  /** Drive number, signature, volume id and the two labels. */
  function Labels(): (s: seq<byte>)
    ensures |s| == 26
  {
    [0x80, 0, 0x29] + Le32(0x12345678) + (OEM + [32, 32, 32]) + FS_TYPE
  }

  function BootSector(start: u32, sc: u32): Sector {
    Bpb(start, sc) + Ext(sc) + Labels() + Zeros(420) + [0x55, 0xAA]
  }

  method FillBoot(buf: array<byte>, start: u32, sc: u32)
    requires buf.Length == 512
    modifies buf
    ensures buf[..] == BootSector(start, sc)
  {
    Memset(buf, 0, 0, 512);
    Memcpy(buf, 0, Bpb(start, sc));
    Memcpy(buf, 36, Ext(sc));
    Memcpy(buf, 64, Labels());
    buf[510], buf[511] := 0x55, 0xAA;
  }

  // ---- the tables ----

  /** A table with the root directory in cluster 2 and nothing else. */
  function FreshFat(n: nat): (f: seq<u32>)
    ensures |f| == n
            && forall i | 0 <= i < n :: f[i] == if i == 0 then 0x0FFF_FFF8 else if i <= 2 then 0x0FFF_FFFF else 0
  {
    seq(n, i => if i == 0 then 0x0FFF_FFF8 else if i <= 2 then 0x0FFF_FFFF else 0)
  }

  lemma FreshRepresents(n: nat)
    requires 2 < n <= MAX_CLUSTERS
    ensures Represents(FreshFat(n), {[2]})
  {
    var f: Fat := FreshFat(n);
    assert Last(f, 2);
    assert Chain(f, [2]);
    forall c | 2 <= c < |f| && !Free(f, c) ensures Covered({[2]}, c) {
      assert c == 2 && c in [2];
    }
  }

  lemma FreshSectors(n: nat, j: nat)
    requires j < n
    ensures FatSector(FreshFat(n * 128), j) == if j == 0 then FatSector(FreshFat(128), 0) else Zeros(512)
  {
    var f, s := FreshFat(n * 128), FatSector(FreshFat(n * 128), j);
    if j > 0 {
      forall k | 0 <= k < 512 ensures s[k] == 0 {
        assert f[j * 128 + k / 4] == 0;
      }
    } else {
      forall k | 0 <= k < 512 ensures s[k] == FatSector(FreshFat(128), 0)[k] {
        assert f[k / 4] == FreshFat(128)[k / 4];
      }
    }
  }

  method FillFirst(buf: array<byte>)
    requires buf.Length == 512
    modifies buf
    ensures buf[..] == FatSector(FreshFat(128), 0)
  {
    Memset(buf, 0, 0, 512);
    Memcpy(buf, 0, Le32(0x0FFF_FFF8));
    Memcpy(buf, 4, Le32(0x0FFF_FFFF));
    Memcpy(buf, 8, Le32(0x0FFF_FFFF));
    forall k | 0 <= k < 512 ensures buf[k] == FatSector(FreshFat(128), 0)[k] {
      assert k >= 12 ==> FreshFat(128)[k / 4] == 0;
    }
  }

  // ---- fat32_format_partition ----

  /** One sector repeated. */
  method WriteRun(disk: seq<Sector>, at: nat, n: nat, s: Sector) returns (d: seq<Sector>)
    requires at + n <= |disk|
    ensures |d| == |disk| && forall j | 0 <= j < |d| :: d[j] == if at <= j < at + n then s else disk[j]
  {
    d := disk;
    for i := 0 to n
      invariant |d| == |disk| && forall j | 0 <= j < |d| :: d[j] == if at <= j < at + i then s else disk[j]
    {
      d := d[at + i := s];
    }
  }

  /** One table: its first sector, even of a table of none, then zeros. */
  method WriteTable(disk: seq<Sector>, at: nat, n: nat, buf: array<byte>) returns (d: seq<Sector>)
    requires at < |disk| && at + n <= |disk| && buf.Length == 512
    modifies buf
    ensures buf[..] == Zeros(512)
    ensures if n == 0 then d == disk[at := FatSector(FreshFat(128), 0)] else OneCopy(disk, d, at, n, FreshFat(n * 128))
  {
    FillFirst(buf);
    d := disk[at := buf[..]];
    Memset(buf, 0, 0, 512);
    assert buf[..] == Zeros(512);
    d := WriteRun(d, at + 1, if n == 0 then 0 else n - 1, buf[..]);
    TableWritten(disk, d, at, n);
  }

  lemma TableWritten(disk: seq<Sector>, d: seq<Sector>, at: nat, n: nat)
    requires at < |disk| && at + n <= |disk| && |d| == |disk|
    requires forall j | 0 <= j < |d| ::
      d[j] == if j == at then FatSector(FreshFat(128), 0) else if at < j < at + n then Zeros(512) else disk[j]
    ensures if n == 0 then d == disk[at := FatSector(FreshFat(128), 0)] else OneCopy(disk, d, at, n, FreshFat(n * 128))
  {
    forall j | at <= j < at + n ensures d[j] == FatSector(FreshFat(n * 128), j - at) {
      FreshSectors(n, j - at);
    }
  }

  ghost predicate FsInfoOk(s: seq<byte>) {
    && |s| == 512
    && s[0..4] == [82, 82, 97, 65] && s[4..484] == Zeros(480) && s[484..488] == [114, 114, 65, 97]
    && s[488..492] == Le32(0xFFFF_FFFF) && s[492..496] == Le32(3) && s[496..510] == Zeros(14)
    && s[510..] == [0x55, 0xAA]
  }

  method FillFsInfo(buf: array<byte>)
    requires buf.Length == 512
    modifies buf
    ensures FsInfoOk(buf[..])
  {
    Memset(buf, 0, 0, 512);
    Memcpy(buf, 0, [82, 82, 97, 65]);
    Memcpy(buf, 484, [114, 114, 65, 97]);
    Memcpy(buf, 488, Le32(0xFFFF_FFFF));
    Memcpy(buf, 492, Le32(3));
    buf[510], buf[511] := 0x55, 0xAA;
  }

  /** The whole effect of formatting: reserved sectors, two equal tables, a zeroed root cluster, nothing else. */
  ghost predicate FormattedDisk(d: seq<Sector>, e: seq<Sector>, start: u32, sc: u32) {
    var n := FormatFatSize(sc);
    var fat := start + 32;
    && |e| == |d| && fat + 2 * n + 8 <= |d|
    && e[start] == e[start + 6] == BootSector(start, sc) && FsInfoOk(e[start + 1])
    && CopyAt(e, fat, n, FreshFat(n * 128)) && CopyAt(e, fat + n, n, FreshFat(n * 128))
    && (forall j | fat + 2 * n <= j < fat + 2 * n + 8 :: e[j] == Zeros(512))
    && forall j | 0 <= j < |d| && !(fat <= j < fat + 2 * n + 8) && j != start && j != start + 1 && j != start + 6 ::
       e[j] == d[j]
  }

  /** The boot sector, its backup and the FSInfo sector. */
  method WriteReserved(disk: seq<Sector>, start: u32, sc: u32, buf: array<byte>) returns (d: seq<Sector>)
    requires start + 6 < |disk| && buf.Length == 512
    modifies buf
    ensures |d| == |disk| && d[start] == d[start + 6] == BootSector(start, sc) && FsInfoOk(d[start + 1])
    ensures forall j | 0 <= j < |d| && j != start && j != start + 1 && j != start + 6 :: d[j] == disk[j]
  {
    FillBoot(buf, start, sc);
    d := disk[start := buf[..]];
    FillBoot(buf, start, sc);
    d := d[start + 6 := buf[..]];
    FillFsInfo(buf);
    d := d[start + 1 := buf[..]];
  }

  /** Both tables and the root cluster behind them. */
  method WriteTables(disk: seq<Sector>, at: nat, n: nat, buf: array<byte>) returns (d: seq<Sector>)
    requires at + 2 * n + 8 <= |disk| && buf.Length == 512
    modifies buf
    ensures |d| == |disk| && CopyAt(d, at, n, FreshFat(n * 128)) && CopyAt(d, at + n, n, FreshFat(n * 128))
    ensures forall j | at + 2 * n <= j < at + 2 * n + 8 :: d[j] == Zeros(512)
    ensures forall j | 0 <= j < |d| && !(at <= j < at + 2 * n + 8) :: d[j] == disk[j]
  {
    var d2 := WriteTable(disk, at, n, buf);
    var d3 := WriteTable(d2, at + n, n, buf);
    d := WriteRun(d3, at + 2 * n, 8, buf[..]);
    if n > 0 {
      BothTables(disk, d2, d3, d, at, n, FreshFat(n * 128));
    }
  }

  method Format(disk: seq<Sector>, start: u32, sc: u32) returns (d: seq<Sector>)
    requires start + 32 + 2 * FormatFatSize(sc) + 8 <= |disk| < 0x1_0000_0000
    ensures FormattedDisk(disk, d, start, sc)
  {
    var buf := new byte[512];
    d := WriteReserved(disk, start, sc, buf);
    ghost var r := d;
    d := WriteTables(d, start + 32, FormatFatSize(sc), buf);
    assert d[start] == r[start] && d[start + 1] == r[start + 1] && d[start + 6] == r[start + 6];
  }

  lemma BothTables(d1: seq<Sector>, d2: seq<Sector>, d3: seq<Sector>, d: seq<Sector>, at: nat, n: nat, f: seq<u32>)
    requires OneCopy(d1, d2, at, n, f) && OneCopy(d2, d3, at + n, n, f) && |d| == |d3|
    requires forall j | 0 <= j < |d| && !(at + 2 * n <= j < at + 2 * n + 8) :: d[j] == d3[j]
    ensures CopyAt(d, at, n, f) && CopyAt(d, at + n, n, f)
    ensures forall j | 0 <= j < |d| && !(at <= j < at + 2 * n + 8) :: d[j] == d1[j]
  {
  }

  // ---- fat32_init ----

  /** A table as the driver reads it into memory. */
  function TableAt(d: seq<Sector>, at: nat, n: nat): (f: seq<u32>)
    requires at + n <= |d|
    ensures |f| == n * 128
  {
    seq(n * 128, i requires 0 <= i < n * 128 => Get32(d[at + i / 128], i % 128 * 4))
  }

  /** Entry `i` of a table on the disk: four bytes, 128 entries to the sector. */
  lemma EntryOnDisk(d: seq<Sector>, at: nat, n: nat, f: seq<u32>, i: nat)
    requires CopyAt(d, at, n, f) && i < |f|
    ensures Says(d[at + i / 128], i % 128 * 4, f[i])
  {
    var j, k := i / 128, i % 128;
    assert d[at + j] == FatSector(f, j);
    EntryInSector(f, j, k);
    assert j * 128 + k == i;
  }

  lemma EntryInSector(f: seq<u32>, j: nat, k: nat)
    requires (j + 1) * 128 <= |f| && k < 128
    ensures Says(FatSector(f, j), k * 4, f[j * 128 + k])
  {
    WordInSector(f, j, k);
    Number(FatSector(f, j), k * 4, f[j * 128 + k]);
  }

  lemma WordInSector(f: seq<u32>, j: nat, k: nat)
    requires (j + 1) * 128 <= |f| && k < 128
    ensures FatSector(f, j)[k * 4..k * 4 + 4] == Le32(f[j * 128 + k])
  {
    ByteInSector(f, j, k, 0);
    ByteInSector(f, j, k, 1);
    ByteInSector(f, j, k, 2);
    ByteInSector(f, j, k, 3);
  }

  lemma ByteInSector(f: seq<u32>, j: nat, k: nat, b: nat)
    requires (j + 1) * 128 <= |f| && k < 128 && b < 4
    ensures FatSector(f, j)[k * 4 + b] == Le32(f[j * 128 + k])[b]
  {
    assert (k * 4 + b) / 4 == k && (k * 4 + b) % 4 == b;
  }

  /** Reading a table back undoes writing it. */
  lemma TableReadBack(d: seq<Sector>, at: nat, n: nat, f: seq<u32>)
    requires CopyAt(d, at, n, f)
    ensures TableAt(d, at, n) == f
  {
    var t := TableAt(d, at, n);
    forall i | 0 <= i < |t| ensures t[i] == f[i] {
      WordRead(d, at, n, f, i, i / 128, i % 128);
    }
  }

  lemma WordRead(d: seq<Sector>, at: nat, n: nat, f: seq<u32>, i: nat, j: nat, k: nat)
    requires CopyAt(d, at, n, f) && j < n && k < 128 && i == j * 128 + k
    ensures TableAt(d, at, n)[i] == f[i]
  {
    assert i / 128 == j && i % 128 == k;
    assert d[at + j] == FatSector(f, j);
    WordOfSector(f, j, k);
  }

  lemma WordOfSector(f: seq<u32>, j: nat, k: nat)
    requires (j + 1) * 128 <= |f| && k < 128
    ensures Get32(FatSector(f, j), k * 4) == f[j * 128 + k]
  {
    WordInSector(f, j, k);
    Number(FatSector(f, j), k * 4, f[j * 128 + k]);
  }

  function BootGeometry(s: Sector, start: u32): Geometry {
    Geometry(start, Get16(s, 14), Get32(s, 36), s[16], s[13], Get32(s, 44))
  }

  /** What the driver reads from a boot sector is what the formatter put there. */
  lemma BootReadBack(start: u32, sc: u32)
    ensures var s := BootSector(start, sc);
            BootGeometry(s, start) == Formatted(start, sc) && Get16(s, 11) == 512 && s[82..90] == FS_TYPE
  {
    var s := BootSector(start, sc);
    BpbReads(start, sc);
    ExtReads(sc);
    assert s[..36] == Bpb(start, sc) && s[36..64] == Ext(sc) && s[64..90] == Labels();
    assert Get16(s[..36], 11) == 512 && Get16(s[..36], 14) == 32 && s[..36][13] == 8 && s[..36][16] == 2;
    assert Get32(s[36..64], 0) == FormatFatSize(sc) && Get32(s[36..64], 8) == 2;
    assert s[64..90][18..26] == FS_TYPE;
  }

  /** Four bytes as a number, the least significant first. */
  predicate Says(s: seq<byte>, at: nat, x: int) {
    && at + 4 <= |s|
    && s[at] as int + 0x100 * s[at + 1] as int + 0x1_0000 * s[at + 2] as int + 0x100_0000 * s[at + 3] as int == x
  }

  /** The boot sector field by field. */
  lemma BootFields(start: u32, sc: u32)
    ensures var s := BootSector(start, sc);
            && s[0] == 0xEB && s[1] == 0x58 && s[2] == 0x90 && s[11] == 0 && s[12] == 2 && s[13] == 8 && s[14] == 32
            && s[15] == 0 && s[16] == 2 && s[17] == s[18] == s[19] == s[20] == 0 && s[21] == 0xF8 && s[22] == s[23] == 0
            && s[24] == 63 && s[25] == 0 && s[26] == 255 && s[27] == 0 && Says(s, 28, start) && Says(s, 32, sc)
            && Says(s, 36, FormatFatSize(sc))
            && (forall i | 40 <= i < 64 ::
                  s[i] == if i == 44 then 2 else if i == 48 then 1 else if i == 50 then 6 else 0)
            && s[64] == 0x80 && s[65] == 0 && s[66] == 0x29 && Says(s, 67, 0x12345678)
            && s[71..82] == [69, 77, 69, 88, 79, 83, 32, 32, 32, 32, 32]
            && s[82..90] == [70, 65, 84, 51, 50, 32, 32, 32]
            && (forall i | 90 <= i < 510 :: s[i] == 0) && s[510] == 0x55 && s[511] == 0xAA
  {
    BootParts(start, sc);
    BpbFields(start, sc);
    ExtFields(sc);
    LabelFields();
  }

  lemma BootParts(start: u32, sc: u32)
    ensures var s := BootSector(start, sc);
            && (forall i | 0 <= i < 36 :: s[i] == Bpb(start, sc)[i])
            && (forall i | 36 <= i < 64 :: s[i] == Ext(sc)[i - 36])
            && (forall i | 64 <= i < 90 :: s[i] == Labels()[i - 64]) && s[71..90] == Labels()[7..]
            && (forall i | 90 <= i < 510 :: s[i] == 0) && s[510] == 0x55 && s[511] == 0xAA
  {
  }

  lemma BpbFields(start: u32, sc: u32)
    ensures var s := Bpb(start, sc);
            && s[0] == 0xEB && s[1] == 0x58 && s[2] == 0x90 && s[11] == 0 && s[12] == 2 && s[13] == 8 && s[14] == 32
            && s[15] == 0 && s[16] == 2 && s[17] == s[18] == s[19] == s[20] == 0 && s[21] == 0xF8 && s[22] == s[23] == 0
            && s[24] == 63 && s[25] == 0 && s[26] == 255 && s[27] == 0 && Says(s, 28, start) && Says(s, 32, sc)
  {
    assert Bpb(start, sc)[28..32] == Le32(start) && Bpb(start, sc)[32..36] == Le32(sc);
    Number(Bpb(start, sc), 28, start);
    Number(Bpb(start, sc), 32, sc);
  }

  lemma ExtFields(sc: u32)
    ensures var s := Ext(sc);
            && Says(s, 0, FormatFatSize(sc))
            && forall i | 4 <= i < 28 :: s[i] == if i == 8 then 2 else if i == 12 then 1 else if i == 14 then 6 else 0
  {
    assert Ext(sc)[0..4] == Le32(FormatFatSize(sc));
    Number(Ext(sc), 0, FormatFatSize(sc));
  }

  lemma LabelFields()
    ensures var s := Labels();
            && s[0] == 0x80 && s[1] == 0 && s[2] == 0x29 && Says(s, 3, 0x12345678)
            && s[7..18] == [69, 77, 69, 88, 79, 83, 32, 32, 32, 32, 32] && s[18..26] == [70, 65, 84, 51, 50, 32, 32, 32]
  {
    assert Labels()[3..7] == Le32(0x12345678);
    Number(Labels(), 3, 0x12345678);
  }

  lemma Number(s: seq<byte>, at: nat, x: u32)
    requires at + 4 <= |s| && s[at..at + 4] == Le32(x)
    ensures Says(s, at, x)
  {
    assert s[at] == s[at..at + 4][0] && s[at + 1] == s[at..at + 4][1];
    assert s[at + 2] == s[at..at + 4][2] && s[at + 3] == s[at..at + 4][3];
  }

  lemma BpbReads(start: u32, sc: u32)
    ensures var s := Bpb(start, sc); Get16(s, 11) == 512 && s[13] == 8 && Get16(s, 14) == 32 && s[16] == 2
  {
    assert Bpb(start, sc)[..17] == [0xEB, 0x58, 0x90] + OEM + Le16(512) + [8] + Le16(32) + [2];
    assert Bpb(start, sc)[11..13] == Le16(512) && Bpb(start, sc)[14..16] == Le16(32);
  }

  lemma ExtReads(sc: u32)
    ensures var s := Ext(sc); Get32(s, 0) == FormatFatSize(sc) && Get32(s, 8) == 2
  {
    assert Ext(sc)[0..4] == Le32(FormatFatSize(sc)) && Ext(sc)[8..12] == Le32(2);
  }

  /** Read one table sector into memory. */
  method LoadSector(fat: array<u32>, i: nat, s: Sector)
    requires (i + 1) * 128 <= fat.Length
    modifies fat
    ensures forall j | 0 <= j < fat.Length ::
      fat[j] == if i * 128 <= j < (i + 1) * 128 then Get32(s, (j - i * 128) * 4) else old(fat[j])
  {
    for k := 0 to 128
      invariant forall j | 0 <= j < fat.Length ::
        fat[j] == if i * 128 <= j < i * 128 + k then Get32(s, (j - i * 128) * 4) else old(fat[j])
    {
      fat[i * 128 + k] := Get32(s, k * 4);
    }
  }

  /** Mount the partition at `start`: nothing without the label, otherwise the geometry and the first table. */
  method Mount(disk: seq<Sector>, start: u32, ghost s: set<seq<nat>>) returns (v: Volume?)
    requires start < |disk|
    requires disk[start][82..90] == FS_TYPE ==>
      var g := BootGeometry(disk[start], start);
      && Get16(disk[start], 11) == 512 && g.Good(|disk|) && g.FatStart() + g.fatSize <= |disk|
      && Represents(TableAt(disk, g.FatStart(), g.fatSize), s)
    ensures v == null <==> disk[start][82..90] != FS_TYPE
    ensures v != null ==>
      && v.Valid() && v.g == BootGeometry(disk[start], start) && v.disk == disk && v.chains == s
      && v.g.FatStart() + v.g.fatSize <= |disk| && v.fat[..] == TableAt(disk, v.g.FatStart(), v.g.fatSize)
  {
    var boot := disk[start];
    if boot[82..90] != FS_TYPE {
      return null;
    }
    var g := BootGeometry(boot, start);
    GoodBounds(g, |disk|);
    var fat := new u32[g.fatSize * 128];
    ghost var table := TableAt(disk, g.FatStart(), g.fatSize);
    for i := 0 to g.fatSize
      invariant forall j | 0 <= j < i * 128 :: fat[j] == table[j]
    {
      LoadSector(fat, i, disk[g.FatStart() + i]);
    }
    assert fat[..] == table;
    v := new Volume(g, disk, fat, s);
  }

  // ---- an empty file system ----

  lemma ZeroRun(g: Geometry, d: seq<Sector>, c: nat)
    requires g.Good(|d|) && 2 <= c < g.Clusters() && g.ClusterStart(c) + g.spc <= |d|
    requires forall j | g.ClusterStart(c) <= j < g.ClusterStart(c) + g.spc :: d[j] == Zeros(512)
    ensures forall i | 0 <= i < g.ClusterBytes() :: ClusterData(g, d, c)[i] == 0
  {
    forall i | 0 <= i < g.ClusterBytes() ensures ClusterData(g, d, c)[i] == 0 {
      assert d[g.ClusterStart(c) + i / 512] == Zeros(512);
    }
  }

  lemma EmptyTree(g: Geometry, d: seq<Sector>, f: Fat)
    requires g.Good(|d|) && g.root == 2 && |f| == g.Clusters() && Represents(f, {[2]})
    requires forall i | 0 <= i < g.ClusterBytes() :: ClusterData(g, d, 2)[i] == 0
    ensures TreeOk(g, d, {[2]}, map[2 := [[]]])
  {
    var s: set<seq<nat>> := {[2]};
    ChainFromIs(f, s, [2]);
    EmptyCluster(ClusterData(g, d, 2));
    assert DirRep(g, d, [2], [[]]);
    var tree: Tree := map[2 := [[]]];
    forall h, e {:trigger In(e, tree[h])} | h in tree ensures !In(e, tree[h]) {
      NothingIn(e);
    }
  }

  /** What the driver finds when it mounts a formatted partition. */
  ghost predicate ReadsFresh(e: seq<Sector>, start: u32, g: Geometry, f: seq<u32>) {
    && start < |e| && e[start][82..90] == FS_TYPE && Get16(e[start], 11) == 512 && BootGeometry(e[start], start) == g
    && g.Good(|e|) && g.FatStart() + 2 * g.fatSize <= |e|
    && TableAt(e, g.FatStart(), g.fatSize) == f && |f| == g.Clusters()
    && CopyAt(e, g.FatStart(), g.fatSize, f) && CopyAt(e, g.FatStart() + g.fatSize, g.fatSize, f)
    && forall i | 0 <= i < g.ClusterBytes() :: ClusterData(g, e, 2)[i] == 0
  }

  lemma FormattedReads(d: seq<Sector>, e: seq<Sector>, start: u32, sc: u32)
    requires MIN_SECTORS <= sc <= MAX_SECTORS && start + sc <= |d| < 0x1_0000_0000 && FormattedDisk(d, e, start, sc)
    ensures ReadsFresh(e, start, Formatted(start, sc), FreshFat(FormatFatSize(sc) * 128))
  {
    GoodFormatted(start, sc, |e|);
    BootReadBack(start, sc);
    var n := FormatFatSize(sc);
    LayoutReads(e, start, Formatted(start, sc), start + 32, n, FreshFat(n * 128));
  }

  lemma LayoutReads(e: seq<Sector>, start: u32, g: Geometry, at: nat, n: nat, f: seq<u32>)
    requires g.Good(|e|) && g.FatStart() == at && g.fatSize == n && |f| == g.Clusters() && at + 2 * n <= |e|
             && start < |e|
    requires e[start][82..90] == FS_TYPE && Get16(e[start], 11) == 512 && BootGeometry(e[start], start) == g
    requires CopyAt(e, at, n, f) && CopyAt(e, at + n, n, f)
    requires g.ClusterStart(2) == at + 2 * n
             && forall j | at + 2 * n <= j < at + 2 * n + g.spc && j < |e| :: e[j] == Zeros(512)
    ensures ReadsFresh(e, start, g, f)
  {
    GoodBounds(g, |e|);
    TableReadBack(e, at, n, f);
    RootReads(e, g, at + 2 * n);
  }

  lemma RootReads(e: seq<Sector>, g: Geometry, at: nat)
    requires g.Good(|e|) && g.ClusterStart(2) == at && forall j | at <= j < at + g.spc && j < |e| :: e[j] == Zeros(512)
    ensures 2 < g.Clusters() && forall i | 0 <= i < g.ClusterBytes() :: ClusterData(g, e, 2)[i] == 0
  {
    GoodBounds(g, |e|);
    RunInRange(g, |e|, 2);
    ZeroRun(g, e, 2);
  }

  lemma GoodFormatted(start: u32, sc: u32, sectors: nat)
    requires MIN_SECTORS <= sc <= MAX_SECTORS && start + sc <= sectors < 0x1_0000_0000
    ensures var g := Formatted(start, sc);
            && g.Good(sectors) && g.FatStart() + 2 * g.fatSize <= sectors && g.Clusters() == FormatFatSize(sc) * 128
            && g.ClusterStart(2) == start + 32 + 2 * FormatFatSize(sc) && g.fatSize >= 1
  {
    FatSizeBounds(sc);
    FormattedGood(start, sc, sectors);
    GoodBounds(Formatted(start, sc), sectors);
  }

  method MountFresh(d: seq<Sector>, start: u32, ghost g: Geometry, ghost f: seq<u32>) returns (v: Volume?)
    requires ReadsFresh(d, start, g, f) && Represents(f, {[2]}) && g.root == 2
    ensures v != null && v.g == g && v.chains == {[2]} && v.disk == d && v.fat[..] == f && v.Valid()
  {
    v := Mount(d, start, {[2]});
  }

  /** Formatting and mounting gives an empty file system whose two tables on the disk equal the one in memory. */
  method FormatAndMount(disk: seq<Sector>, start: u32, sc: u32) returns (v: Volume?)
    requires MIN_SECTORS <= sc <= MAX_SECTORS && start + sc <= |disk| < 0x1_0000_0000
    ensures v != null && v.g == Formatted(start, sc) && v.chains == {[2]} && FsOk(v, map[2 := [[]]]) && v.Synced()
  {
    FatSizeBounds(sc);
    ghost var g, f := Formatted(start, sc), FreshFat(FormatFatSize(sc) * 128);
    var d := Format(disk, start, sc);
    FormattedReads(disk, d, start, sc);
    GoodBounds(g, |d|);
    FreshRepresents(FormatFatSize(sc) * 128);
    v := MountFresh(d, start, g, f);
    EmptyTree(g, d, f);
  }
}
