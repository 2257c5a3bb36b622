/** FAT32 volume geometry: the boot sector, clusters and FAT entries. */
module Fat32 {
  import opened Options

  const MIN_CLUSTERS: nat := 65525
  const U32_LIMIT: nat := 0x1_0000_0000

  type Byte = x: nat | x < 256

  datatype Geometry = Geometry(bytesPerSector: nat, sectorsPerCluster: nat, numFats: nat, fatStart: nat,
                               sectorsPerFat: nat, dataStart: nat, rootCluster: nat, totalSectors: nat)

  datatype BpbError =
    | BadBootSignature
    | NotFat32
    | InvalidBytesPerSector(value: nat)
    | InvalidSectorsPerCluster(value: nat)
    | ZeroReservedSectors
    | ZeroFats
    | ZeroSectorsPerFat
    | InvalidRootCluster(value: nat)
    | ZeroTotalSectors
    | NonZeroRootEntries(value: nat)
    | NonZeroSectorsPerFat16(value: nat)
    | LayoutExceedsVolume(dataStart: nat, totalSectors: nat)
    | NoDataClusters
    | RootClusterOutOfRange(value: nat, max: nat)
    | BelowFat32MinimumClusters(count: nat, minimum: nat)
    | FatTooSmallForClusterCount(fatEntries: nat, required: nat)

  datatype BpbResult = Ok(geometry: Geometry) | Err(error: BpbError)

  function U16At(s: seq<Byte>, i: nat): (v: nat)
    requires i + 2 <= |s|
    ensures v < 0x1_0000
  {
    var low: nat, high: nat := s[i], s[i + 1];
    low + 256 * high
  }

  function U32At(s: seq<Byte>, i: nat): (v: nat)
    requires i + 4 <= |s|
    ensures v < U32_LIMIT
  {
    U16At(s, i) + 0x1_0000 * U16At(s, i + 2)
  }

  function ClusterCount(g: Geometry): nat
    requires g.dataStart <= g.totalSectors && g.sectorsPerCluster > 0
  {
    (g.totalSectors - g.dataStart) / g.sectorsPerCluster
  }

  function MaxCluster(g: Geometry): nat
    requires g.dataStart <= g.totalSectors && g.sectorsPerCluster > 0
  {
    ClusterCount(g) + 1
  }

  predicate PowerOfTwo(n: nat)
  {
    n == 1 || n == 2 || n == 4 || n == 8 || n == 16 || n == 32 || n == 64 || n == 128
  }

  const FS_TYPE: seq<Byte> := [0x46, 0x41, 0x54, 0x33, 0x32, 0x20, 0x20, 0x20]

  /** What the sector says, whether or not it makes sense. */
  datatype Claims = Claims(signed: bool, typed: bool, bytesPerSector: nat, sectorsPerCluster: nat, reserved: nat,
                           numFats: nat, rootEntries: nat, spf16: nat, total: nat, spf: nat, root: nat)

  function ClaimsOf(s: seq<Byte>): Claims
    requires |s| == 512
  {
    Claims(s[510] == 0x55 && s[511] == 0xAA, s[82..90] == FS_TYPE, U16At(s, 11), s[13], U16At(s, 14), s[16],
           U16At(s, 17), U16At(s, 22), U32At(s, 32), U32At(s, 36), U32At(s, 44))
  }

  function Parse(s: seq<Byte>): BpbResult
    requires |s| == 512
  {
    Check(ClaimsOf(s))
  }

  function Check(c: Claims): BpbResult
  {
    if !c.signed then Err(BadBootSignature)
    else if !c.typed then Err(NotFat32)
    else if c.bytesPerSector != 512 then Err(InvalidBytesPerSector(c.bytesPerSector))
    else if !PowerOfTwo(c.sectorsPerCluster) then Err(InvalidSectorsPerCluster(c.sectorsPerCluster))
    else if c.reserved == 0 then Err(ZeroReservedSectors)
    else if c.numFats == 0 then Err(ZeroFats)
    else if c.rootEntries != 0 then Err(NonZeroRootEntries(c.rootEntries))
    else if c.spf16 != 0 then Err(NonZeroSectorsPerFat16(c.spf16))
    else if c.total == 0 then Err(ZeroTotalSectors)
    else if c.spf == 0 then Err(ZeroSectorsPerFat)
    else if c.root < 2 then Err(InvalidRootCluster(c.root))
    else Layout(c.sectorsPerCluster, c.numFats, c.reserved, c.spf, c.root, c.total)
  }

  /** Place the FATs and the clusters, with sectors of 512 bytes. */
  function Layout(sectorsPerCluster: nat, numFats: nat, reserved: nat, spf: nat, root: nat, total: nat): BpbResult
    requires sectorsPerCluster > 0
  {
    var dataStart := reserved + numFats * spf;
    if dataStart > total then Err(LayoutExceedsVolume(dataStart, total))
    else
      var clusters := (total - dataStart) / sectorsPerCluster;
      var entries := spf * 512 / 4;
      if clusters == 0 then Err(NoDataClusters)
      else if clusters < MIN_CLUSTERS then Err(BelowFat32MinimumClusters(clusters, MIN_CLUSTERS))
      else if entries < clusters + 2 then Err(FatTooSmallForClusterCount(entries, clusters + 2))
      else if root > clusters + 1 then Err(RootClusterOutOfRange(root, clusters + 1))
      else Ok(Geometry(512, sectorsPerCluster, numFats, reserved, spf, dataStart, root, total))
  }

  /** What a FAT32 volume must satisfy; the cluster count decides that it is FAT32. */
  predicate Valid(g: Geometry)
  {
    && g.bytesPerSector == 512 && PowerOfTwo(g.sectorsPerCluster)
    && 0 < g.numFats < 256 && 0 < g.fatStart < 0x1_0000 && 0 < g.sectorsPerFat < U32_LIMIT
    && g.dataStart == g.fatStart + g.numFats * g.sectorsPerFat
    && g.dataStart <= g.totalSectors < U32_LIMIT
    && 65525 <= ClusterCount(g)
    && ClusterCount(g) + 2 <= g.sectorsPerFat * 128
    && 2 <= g.rootCluster <= ClusterCount(g) + 1
  }

  /** The boot sector holds these fields, the low byte of a number first, and the type string `FAT32   `. */
  predicate Describes(s: seq<Byte>, g: Geometry)
    requires |s| == 512
  {
    var b: seq<nat> := s;
    && b[510] == 0x55 && b[511] == 0xAA
    && b[82] == 0x46 && b[83] == 0x41 && b[84] == 0x54 && b[85] == 0x33
    && b[86] == 0x32 && b[87] == 0x20 && b[88] == 0x20 && b[89] == 0x20
    && b[11] + 0x100 * b[12] == g.bytesPerSector && b[13] == g.sectorsPerCluster
    && b[14] + 0x100 * b[15] == g.fatStart && b[16] == g.numFats
    && b[17] == 0 && b[18] == 0 && b[22] == 0 && b[23] == 0
    && b[32] + 0x100 * b[33] + 0x1_0000 * b[34] + 0x100_0000 * b[35] == g.totalSectors
    && b[36] + 0x100 * b[37] + 0x1_0000 * b[38] + 0x100_0000 * b[39] == g.sectorsPerFat
    && b[44] + 0x100 * b[45] + 0x1_0000 * b[46] + 0x100_0000 * b[47] == g.rootCluster
  }

  lemma TypeString(s: seq<Byte>)
    requires |s| == 512
    ensures s[82..90] == FS_TYPE
            <==> s[82] == 0x46 && s[83] == 0x41 && s[84] == 0x54 && s[85] == 0x33
                 && s[86] == 0x32 && s[87] == 0x20 && s[88] == 0x20 && s[89] == 0x20
  {
    var t := s[82..90];
    assert t[0] == s[82] && t[1] == s[83] && t[2] == s[84] && t[3] == s[85];
    assert t[4] == s[86] && t[5] == s[87] && t[6] == s[88] && t[7] == s[89];
  }

  /** The layout checks accept exactly the valid geometries. */
  lemma LayoutExact(sectorsPerCluster: nat, numFats: nat, reserved: nat, spf: nat, root: nat, total: nat, g: Geometry)
    requires PowerOfTwo(sectorsPerCluster) && 0 < numFats < 256 && 0 < reserved < 0x1_0000 && 0 < spf < U32_LIMIT
    requires total < U32_LIMIT && 2 <= root
    ensures Layout(sectorsPerCluster, numFats, reserved, spf, root, total) == Ok(g)
            <==> g == Geometry(512, sectorsPerCluster, numFats, reserved, spf, reserved + numFats * spf, root, total)
                 && Valid(g)
  {
    assert spf * 512 / 4 == spf * 128;
  }

  /** The parser accepts exactly the sectors that describe a valid volume. */
  lemma ParseExact(s: seq<Byte>, g: Geometry)
    requires |s| == 512
    ensures Parse(s) == Ok(g) <==> Describes(s, g) && Valid(g)
  {
    TypeString(s);
    if PowerOfTwo(s[13]) && s[16] > 0 && U16At(s, 14) > 0 && U32At(s, 36) > 0 && U32At(s, 44) >= 2 {
      LayoutExact(s[13], s[16], U16At(s, 14), U32At(s, 36), U32At(s, 44), U32At(s, 32), g);
    }
  }

  // ----- which error -----

  /** The checks in the order in which they are made. */
  function Rank(e: BpbError): nat
  {
    match e
    case BadBootSignature => 0
    case NotFat32 => 1
    case InvalidBytesPerSector(_) => 2
    case InvalidSectorsPerCluster(_) => 3
    case ZeroReservedSectors => 4
    case ZeroFats => 5
    case NonZeroRootEntries(_) => 6
    case NonZeroSectorsPerFat16(_) => 7
    case ZeroTotalSectors => 8
    case ZeroSectorsPerFat => 9
    case InvalidRootCluster(_) => 10
    case LayoutExceedsVolume(_, _) => 11
    case NoDataClusters => 12
    case BelowFat32MinimumClusters(_, _) => 13
    case FatTooSmallForClusterCount(_, _) => 14
    case RootClusterOutOfRange(_, _) => 15
  }

  /** Where the data area would start, and how many whole clusters it would hold. */
  function Start(c: Claims): nat
  {
    c.reserved + c.numFats * c.spf
  }

  function Clusters(c: Claims): nat
    requires c.sectorsPerCluster > 0 && Start(c) <= c.total
  {
    (c.total - Start(c)) / c.sectorsPerCluster
  }

  /** Check k, given that the checks before it passed. */
  predicate Passes(c: Claims, k: nat)
    requires k > 11 ==> c.sectorsPerCluster > 0 && Start(c) <= c.total
  {
    if k == 0 then c.signed
    else if k == 1 then c.typed
    else if k == 2 then c.bytesPerSector == 512
    else if k == 3 then PowerOfTwo(c.sectorsPerCluster)
    else if k == 4 then c.reserved > 0
    else if k == 5 then c.numFats > 0
    else if k == 6 then c.rootEntries == 0
    else if k == 7 then c.spf16 == 0
    else if k == 8 then c.total > 0
    else if k == 9 then c.spf > 0
    else if k == 10 then c.root >= 2
    else if k == 11 then Start(c) <= c.total
    else if k == 12 then Clusters(c) > 0
    else if k == 13 then Clusters(c) >= 65525
    else if k == 14 then c.spf * 128 >= Clusters(c) + 2
    else c.root <= Clusters(c) + 1
  }

  predicate AllPass(c: Claims, k: nat)
  {
    k == 0 || (AllPass(c, k - 1) && (k > 12 ==> c.sectorsPerCluster > 0 && Start(c) <= c.total) && Passes(c, k - 1))
  }

  /** The numbers that an error carries. */
  predicate Carries(e: BpbError, c: Claims)
  {
    match e
    case InvalidBytesPerSector(v) => v == c.bytesPerSector
    case InvalidSectorsPerCluster(v) => v == c.sectorsPerCluster
    case NonZeroRootEntries(v) => v == c.rootEntries
    case NonZeroSectorsPerFat16(v) => v == c.spf16
    case InvalidRootCluster(v) => v == c.root
    case LayoutExceedsVolume(d, t) => d == Start(c) && t == c.total
    case BelowFat32MinimumClusters(n, m) =>
      c.sectorsPerCluster > 0 && Start(c) <= c.total && n == Clusters(c) && m == 65525
    case FatTooSmallForClusterCount(n, m) =>
      c.sectorsPerCluster > 0 && Start(c) <= c.total && n == c.spf * 128 && m == Clusters(c) + 2
    case RootClusterOutOfRange(v, m) =>
      c.sectorsPerCluster > 0 && Start(c) <= c.total && v == c.root && m == Clusters(c) + 1
    case _ => true
  }

  lemma EarlyChecks(c: Claims)
    ensures AllPass(c, 0)
    ensures AllPass(c, 1) <==> c.signed
    ensures AllPass(c, 2) <==> AllPass(c, 1) && c.typed
    ensures AllPass(c, 3) <==> AllPass(c, 2) && c.bytesPerSector == 512
    ensures AllPass(c, 4) <==> AllPass(c, 3) && PowerOfTwo(c.sectorsPerCluster)
    ensures AllPass(c, 5) <==> AllPass(c, 4) && c.reserved > 0
    ensures AllPass(c, 6) <==> AllPass(c, 5) && c.numFats > 0
    ensures AllPass(c, 7) <==> AllPass(c, 6) && c.rootEntries == 0
    ensures AllPass(c, 8) <==> AllPass(c, 7) && c.spf16 == 0
    ensures AllPass(c, 9) <==> AllPass(c, 8) && c.total > 0
    ensures AllPass(c, 10) <==> AllPass(c, 9) && c.spf > 0
    ensures AllPass(c, 11) <==> AllPass(c, 10) && c.root >= 2
  {}

  /** The layout checks report the first one that fails. */
  lemma LayoutError(c: Claims)
    requires AllPass(c, 11) && PowerOfTwo(c.sectorsPerCluster)
    ensures var r := Layout(c.sectorsPerCluster, c.numFats, c.reserved, c.spf, c.root, c.total);
            if r.Ok? then AllPass(c, 16)
            else Rank(r.error) > 10 && AllPass(c, Rank(r.error)) && !Passes(c, Rank(r.error)) && Carries(r.error, c)
  {
    assert c.spf * 512 / 4 == c.spf * 128;
    assert AllPass(c, 12) <==> Start(c) <= c.total;
    if Start(c) <= c.total {
      assert AllPass(c, 13) <==> Clusters(c) > 0;
      assert AllPass(c, 14) <==> AllPass(c, 13) && Clusters(c) >= 65525;
      assert AllPass(c, 15) <==> AllPass(c, 14) && c.spf * 128 >= Clusters(c) + 2;
    }
  }

  lemma CheckError(c: Claims)
    ensures var r := Check(c);
            if r.Ok? then AllPass(c, 16)
            else AllPass(c, Rank(r.error)) && !Passes(c, Rank(r.error)) && Carries(r.error, c)
  {
    EarlyChecks(c);
    if AllPass(c, 11) { LayoutError(c); }
  }

  /** The fields byte by byte, the low byte of a number first. */
  lemma ClaimBytes(s: seq<Byte>)
    requires |s| == 512
    ensures var c, b: seq<nat> := ClaimsOf(s), s;
            && (c.signed <==> b[510] == 0x55 && b[511] == 0xAA)
            && (c.typed <==> b[82] == 0x46 && b[83] == 0x41 && b[84] == 0x54 && b[85] == 0x33
                             && b[86] == 0x32 && b[87] == 0x20 && b[88] == 0x20 && b[89] == 0x20)
            && c.bytesPerSector == b[11] + 0x100 * b[12] && c.sectorsPerCluster == b[13]
            && c.reserved == b[14] + 0x100 * b[15] && c.numFats == b[16]
            && c.rootEntries == b[17] + 0x100 * b[18] && c.spf16 == b[22] + 0x100 * b[23]
            && c.total == b[32] + 0x100 * b[33] + 0x1_0000 * b[34] + 0x100_0000 * b[35]
            && c.spf == b[36] + 0x100 * b[37] + 0x1_0000 * b[38] + 0x100_0000 * b[39]
            && c.root == b[44] + 0x100 * b[45] + 0x1_0000 * b[46] + 0x100_0000 * b[47]
  {
    TypeString(s);
  }

  /** A sector is refused for the first check that it fails, with the numbers at fault. */
  lemma ParseError(s: seq<Byte>)
    requires |s| == 512
    ensures var c, r := ClaimsOf(s), Parse(s);
            if r.Ok? then AllPass(c, 16)
            else AllPass(c, Rank(r.error)) && !Passes(c, Rank(r.error)) && Carries(r.error, c)
  {
    CheckError(ClaimsOf(s));
  }

  // ----- writing a boot sector -----

  /** Byte n of a little-endian number. */
  function Digit(v: nat, n: nat): Byte
    requires n < 4
  {
    if n == 0 then v % 256
    else if n == 1 then v / 256 % 256
    else if n == 2 then v / 0x1_0000 % 256
    else v / 0x100_0000 % 256
  }

  function ByteAt(g: Geometry, i: nat): Byte
  {
    if 11 <= i < 13 then Digit(g.bytesPerSector, i - 11)
    else if i == 13 then Digit(g.sectorsPerCluster, 0)
    else if 14 <= i < 16 then Digit(g.fatStart, i - 14)
    else if i == 16 then Digit(g.numFats, 0)
    else if 32 <= i < 36 then Digit(g.totalSectors, i - 32)
    else if 36 <= i < 40 then Digit(g.sectorsPerFat, i - 36)
    else if 44 <= i < 48 then Digit(g.rootCluster, i - 44)
    else if 82 <= i < 90 then FS_TYPE[i - 82]
    else if i == 510 then 0x55
    else if i == 511 then 0xAA
    else 0
  }

  function BootSector(g: Geometry): (s: seq<Byte>)
    ensures |s| == 512
  {
    seq(512, i requires 0 <= i < 512 => ByteAt(g, i))
  }

  lemma Digits16(v: nat)
    requires v < 0x1_0000
    ensures Digit(v, 0) + 256 * Digit(v, 1) == v
  {
  }

  lemma Digits32(v: nat)
    requires v < U32_LIMIT
    ensures Digit(v, 0) + 256 * Digit(v, 1) + 0x1_0000 * (Digit(v, 2) + 256 * Digit(v, 3)) == v
  {
    assert v / 0x1_0000 / 256 == v / 0x100_0000;
    Digits16(v % 0x1_0000);
    Digits16(v / 0x1_0000);
  }

  /** Every field fits its place in the sector. */
  predicate FieldsFit(g: Geometry)
  {
    && g.bytesPerSector == 512 && g.sectorsPerCluster < 256 && g.numFats < 256 && g.fatStart < 0x1_0000
    && g.totalSectors < U32_LIMIT && g.sectorsPerFat < U32_LIMIT && g.rootCluster < U32_LIMIT
  }

  /** The written sector holds the fields. */
  lemma SectorDescribes(g: Geometry)
    requires FieldsFit(g)
    ensures Describes(BootSector(g), g)
  {
    Digits16(g.fatStart);
    Digits32(g.totalSectors);
    Digits32(g.sectorsPerFat);
    Digits32(g.rootCluster);
  }

  /** Every valid volume can be described, and is read back as it is. */
  lemma RoundTrip(g: Geometry)
    requires Valid(g)
    ensures Parse(BootSector(g)) == Ok(g)
  {
    RootFits(g);
    SectorDescribes(g);
    ParseExact(BootSector(g), g);
  }

  // ----- arithmetic on an accepted volume -----

  /** Every computed number fits the 32-bit types of the source. */
  lemma RootFits(g: Geometry)
    requires Valid(g)
    ensures MaxCluster(g) < U32_LIMIT && g.rootCluster < U32_LIMIT && g.dataStart < U32_LIMIT
    ensures ClusterCount(g) * g.sectorsPerCluster <= g.totalSectors - g.dataStart
  {
    DivBound(g.totalSectors - g.dataStart, g.sectorsPerCluster);
  }

  lemma DivBound(a: nat, m: nat)
    requires m > 0
    ensures a / m * m <= a && a / m <= a && a < (a / m + 1) * m
  {
    var q := a / m;
    assert a == q * m + a % m;
    MulSucc(q, m);
    MulMonotone(1, m, q);
  }

  lemma MulSucc(q: nat, m: nat)
    ensures (q + 1) * m == q * m + m
  {
  }

  function ClusterToSector(cluster: nat, g: Geometry): Option<nat>
    requires g.dataStart <= g.totalSectors && g.sectorsPerCluster > 0
  {
    if cluster < 2 || cluster > MaxCluster(g) then None
    else Some(g.dataStart + (cluster - 2) * g.sectorsPerCluster)
  }

  function FatEntryLocation(cluster: nat, g: Geometry): Option<(nat, nat)>
    requires g.dataStart <= g.totalSectors && g.sectorsPerCluster > 0 && g.bytesPerSector > 0
  {
    if cluster > MaxCluster(g) then None
    else Some((g.fatStart + cluster * 4 / g.bytesPerSector, cluster * 4 % g.bytesPerSector))
  }

  /** A sector belongs to a cluster. */
  predicate InCluster(g: Geometry, cluster: nat, sector: nat)
    requires g.dataStart <= g.totalSectors && g.sectorsPerCluster > 0
  {
    var first := ClusterToSector(cluster, g);
    first.Some? && first.value <= sector < first.value + g.sectorsPerCluster
  }

  /** Clusters lie in the volume behind every FAT copy, and no number overflows. */
  lemma ClusterInVolume(g: Geometry, cluster: nat, sector: nat)
    requires Valid(g) && InCluster(g, cluster, sector)
    ensures g.fatStart + g.numFats * g.sectorsPerFat <= sector < g.totalSectors
    ensures (cluster - 2) * g.sectorsPerCluster < U32_LIMIT && sector < U32_LIMIT
  {
    RootFits(g);
    MulMonotone(cluster - 1, ClusterCount(g), g.sectorsPerCluster);
    MulSucc(cluster - 2, g.sectorsPerCluster);
  }

  lemma MulMonotone(a: nat, b: nat, m: nat)
    requires a <= b
    ensures a * m <= b * m
  {
  }

  /** Clusters follow one another without overlap. */
  lemma ClustersInOrder(g: Geometry, c: nat, d: nat)
    requires Valid(g) && 2 <= c < d <= MaxCluster(g)
    ensures ClusterToSector(c, g).value + g.sectorsPerCluster <= ClusterToSector(d, g).value
  {
    MulSucc(c - 2, g.sectorsPerCluster);
    MulMonotone(c - 1, d - 2, g.sectorsPerCluster);
  }

  /** No sector belongs to two clusters. */
  lemma ClustersDisjoint(g: Geometry, c: nat, d: nat, sector: nat)
    requires Valid(g) && InCluster(g, c, sector) && c != d
    ensures !InCluster(g, d, sector)
  {
    if 2 <= d <= MaxCluster(g) {
      if c < d { ClustersInOrder(g, c, d); } else { ClustersInOrder(g, d, c); }
    }
  }

  /** Every data sector, up to an incomplete last cluster, belongs to some cluster. */
  lemma ClustersCover(g: Geometry, sector: nat) returns (c: nat)
    requires Valid(g) && g.dataStart <= sector < g.dataStart + ClusterCount(g) * g.sectorsPerCluster
    ensures InCluster(g, c, sector)
  {
    var m := g.sectorsPerCluster;
    var q := (sector - g.dataStart) / m;
    DivBound(sector - g.dataStart, m);
    MulSucc(q, m);
    if q >= ClusterCount(g) { MulMonotone(ClusterCount(g), q, m); }
    c := q + 2;
  }

  /** Every FAT entry lies wholly inside the first FAT, and its position is its own. */
  lemma FatEntryInside(g: Geometry, cluster: nat)
    requires Valid(g)
    ensures FatEntryLocation(cluster, g).Some? <==> cluster < ClusterCount(g) + 2
    ensures cluster < ClusterCount(g) + 2 ==>
              var (sector, off) := FatEntryLocation(cluster, g).value;
              && g.fatStart <= sector < g.fatStart + g.sectorsPerFat <= g.dataStart
              && off + 4 <= 512 && off % 4 == 0
              && sector * 512 + off == g.fatStart * 512 + cluster * 4
  {
    MulMonotone(1, g.numFats, g.sectorsPerFat);
    if cluster < ClusterCount(g) + 2 { EntryPlace(cluster, g.sectorsPerFat); }
  }

  /** Entry n of a FAT of that many sectors. */
  lemma EntryPlace(n: nat, sectors: nat)
    requires n < sectors * 128
    ensures n * 4 / 512 < sectors && n * 4 % 512 + 4 <= 512 && n * 4 % 512 % 4 == 0
    ensures n * 4 / 512 * 512 + n * 4 % 512 == n * 4
  {
  }
}
