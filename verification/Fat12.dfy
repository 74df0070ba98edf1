/** drivers/fat12/fat12.c: cluster chains, file contents and directory entries. */
module Fat12 {
  import opened Machine
  import opened BlockDevice

  const LAST_CLUSTER: nat := 0xFFF

  // ---- The table: 12-bit entries, two of them in three bytes.

  /** get_next_cluster_id reads the two bytes that hold entry `id`. */
  predicate InTable(fat: seq<byte>, id: nat) {
    id + id / 2 + 1 < |fat|
  }

  function NextCluster(fat: seq<byte>, id: nat): (next: nat)
    requires InTable(fat, id)
    ensures next <= 0xFFF
  {
    var offset := id + id / 2;
    var packed: nat := fat[offset] as int + 256 * (fat[offset + 1] as int);
    if id % 2 == 1 then packed / 16 else packed % 4096
  }

  /** The layout of section 4.1 of the Microsoft FAT Specification: three bytes for two entries. */
  ghost function PackPair(even: nat, odd: nat): seq<byte>
    requires even < 4096 && odd < 4096
  {
    [even % 256, even / 256 + 16 * (odd % 16), odd / 16]
  }

  ghost predicate Entries(entries: seq<nat>) {
    |entries| % 2 == 0 && forall i :: 0 <= i < |entries| ==> entries[i] < 4096
  }

  ghost function Pack(entries: seq<nat>): (fat: seq<byte>)
    requires Entries(entries)
    ensures |fat| == |entries| / 2 * 3
  {
    if entries == [] then []
    else
      assert Entries(entries[..|entries| - 2]);
      Pack(entries[..|entries| - 2]) + PackPair(entries[|entries| - 2], entries[|entries| - 1])
  }

  /** Looking an entry up in a packed table gives it back. */
  lemma {:induction false} PackedLookup(entries: seq<nat>, id: nat)
    requires Entries(entries) && id < |entries|
    ensures InTable(Pack(entries), id) && NextCluster(Pack(entries), id) == entries[id]
  {
    var n := |entries| - 2;
    var rest := entries[..n];
    assert Entries(rest);
    var fat := Pack(rest);
    if id < n {
      PackedLookup(rest, id);
      SamePrefix(fat, Pack(entries), id);
    } else {
      PairLookup(fat, entries[n], entries[n + 1], id);
    }
  }

  lemma SamePrefix(fat: seq<byte>, fat': seq<byte>, id: nat)
    requires fat <= fat' && InTable(fat, id)
    ensures InTable(fat', id) && NextCluster(fat', id) == NextCluster(fat, id)
  {
  }

  lemma PairLookup(fat: seq<byte>, even: nat, odd: nat, id: nat)
    requires even < 4096 && odd < 4096 && |fat| % 3 == 0 && (id == |fat| / 3 * 2 || id == |fat| / 3 * 2 + 1)
    ensures InTable(fat + PackPair(even, odd), id)
    ensures NextCluster(fat + PackPair(even, odd), id) == if id % 2 == 0 then even else odd
  {
    var k := |fat| / 3;
    assert |fat| == 3 * k;
    var fat' := fat + PackPair(even, odd);
    if id == 2 * k {
      assert id / 2 == k && fat'[3 * k] == even % 256 && fat'[3 * k + 1] == even / 256 + 16 * (odd % 16);
      EvenEntry(even, odd);
    } else {
      assert id / 2 == k && fat'[3 * k + 1] == even / 256 + 16 * (odd % 16) && fat'[3 * k + 2] == odd / 16;
      OddEntry(even, odd);
    }
  }

  lemma EvenEntry(even: nat, odd: nat)
    requires even < 4096
    ensures (even % 256 + 256 * (even / 256 + 16 * (odd % 16))) % 4096 == even
  {
    var k := odd % 16;
    assert even % 256 + 256 * (even / 256 + 16 * k) == even + 4096 * k;
  }

  lemma OddEntry(even: nat, odd: nat)
    requires even < 4096 && odd < 4096
    ensures (even / 256 + 16 * (odd % 16) + 256 * (odd / 16)) / 16 == odd
  {
    assert 16 * (odd % 16) + 256 * (odd / 16) == 16 * odd;
  }

  // ---- Chains.

  /** The clusters from `first` on are exactly `ids`, and then the table says 0xFFF. */
  ghost predicate Chain(fat: seq<byte>, first: nat, ids: seq<nat>)
    decreases |ids|
  {
    if ids == [] then first == LAST_CLUSTER
    else first == ids[0] && first != LAST_CLUSTER && InTable(fat, first) && Chain(fat, NextCluster(fat, first), ids[1..])
  }

  /** Entry k of a chain is what is reached after k links. */
  ghost function Reached(fat: seq<byte>, ids: seq<nat>, k: nat): nat
    requires k <= |ids|
  {
    if k < |ids| then ids[k] else LAST_CLUSTER
  }

  lemma {:induction false} ChainLinks(fat: seq<byte>, first: nat, ids: seq<nat>, k: nat)
    requires Chain(fat, first, ids) && k < |ids|
    ensures InTable(fat, ids[k]) && ids[k] != LAST_CLUSTER && NextCluster(fat, ids[k]) == Reached(fat, ids, k + 1)
    ensures first == Reached(fat, ids, 0)
    decreases k
  {
    if k > 0 {
      ChainLinks(fat, NextCluster(fat, first), ids[1..], k - 1);
    }
  }

  /** count_file_clusters terminates on a chain and gives its length. */
  method CountFileClusters(first: nat, fat: seq<byte>, ghost ids: seq<nat>) returns (count: nat)
    requires Chain(fat, first, ids)
    ensures count == |ids|
  {
    count := 0;
    var cluster := first;
    while cluster != LAST_CLUSTER
      invariant count <= |ids| && Chain(fat, cluster, ids[count..])
      decreases |ids| - count
    {
      assert ids[count..][1..] == ids[count + 1..];
      count := count + 1;
      cluster := NextCluster(fat, cluster);
    }
  }

  /** The first k clusters of a walk; fewer if it meets 0xFFF or leaves the table. */
  ghost function Walk(fat: seq<byte>, id: nat, k: nat): seq<nat>
    decreases k
  {
    if k == 0 || id == LAST_CLUSTER || !InTable(fat, id) then [] else [id] + Walk(fat, NextCluster(fat, id), k - 1)
  }

  /** What the walk meets after its first k clusters. */
  ghost function Met(fat: seq<byte>, id: nat, k: nat): nat
    decreases k
  {
    if k == 0 || id == LAST_CLUSTER || !InTable(fat, id) then id else Met(fat, NextCluster(fat, id), k - 1)
  }

  lemma {:induction false} WalkInside(fat: seq<byte>, id: nat, k: nat)
    ensures |Walk(fat, id, k)| <= k && forall i :: 0 <= i < |Walk(fat, id, k)| ==> Walk(fat, id, k)[i] < |fat|
    ensures |Walk(fat, id, k)| < k && Met(fat, id, k) == LAST_CLUSTER ==> Chain(fat, id, Walk(fat, id, k))
    decreases k
  {
    if k > 0 && id != LAST_CLUSTER && InTable(fat, id) {
      WalkInside(fat, NextCluster(fat, id), k - 1);
      assert Walk(fat, id, k)[1..] == Walk(fat, NextCluster(fat, id), k - 1);
    }
  }

  /** A chain is found by walking far enough. */
  lemma {:induction false} ChainWalked(fat: seq<byte>, first: nat, ids: seq<nat>, k: nat)
    requires Chain(fat, first, ids) && |ids| <= k
    ensures Walk(fat, first, k) == ids && Met(fat, first, k) == LAST_CLUSTER
    decreases k
  {
    if ids != [] {
      ChainWalked(fat, NextCluster(fat, first), ids[1..], k - 1);
      assert ids == [first] + ids[1..];
    }
  }

  /** n different numbers below n are all there are. */
  lemma {:induction false} Pigeonhole(ids: seq<nat>, n: nat)
    requires NoDup(ids) && forall i :: 0 <= i < |ids| ==> ids[i] < n
    ensures |ids| <= n
  {
    if n == 0 {
      if ids != [] {
        assert false;
      }
    } else if n - 1 in ids {
      var k :| 0 <= k < |ids| && ids[k] == n - 1;
      Pigeonhole(ids[..k] + ids[k + 1..], n - 1);
    } else {
      assert forall i :: 0 <= i < |ids| ==> ids[i] in ids;
      Pigeonhole(ids, n - 1);
    }
  }

  /** Some sequence of clusters is the chain from `first` on. */
  ghost predicate HasChain(fat: seq<byte>, first: nat) {
    exists ids :: Chain(fat, first, ids)
  }

  /** A chain exists exactly if a walk through as many clusters as the table has bytes repeats none of them and meets
      0xFFF, that is, if it neither runs in a circle nor leaves the table; then the walk is the chain. */
  lemma ChainExists(fat: seq<byte>, first: nat)
    ensures var walk, end := Walk(fat, first, |fat| + 1), Met(fat, first, |fat| + 1);
            && (HasChain(fat, first) <==> NoDup(walk) && end == LAST_CLUSTER)
            && (HasChain(fat, first) ==> Chain(fat, first, walk))
  {
    hide NextCluster;
    var k := |fat| + 1;
    var walk := Walk(fat, first, k);
    if HasChain(fat, first) {
      var ids :| Chain(fat, first, ids);
      EndsAcyclic(fat, first, ids);
      ChainInside(fat, first, ids);
      Pigeonhole(ids, |fat|);
      ChainWalked(fat, first, ids, k);
      assert walk == ids;
    }
    if NoDup(walk) && Met(fat, first, k) == LAST_CLUSTER {
      WalkInside(fat, first, k);
      Pigeonhole(walk, |fat|);
      assert Chain(fat, first, walk);
    }
  }

  lemma ChainInside(fat: seq<byte>, first: nat, ids: seq<nat>)
    requires Chain(fat, first, ids)
    ensures forall i :: 0 <= i < |ids| ==> ids[i] < |fat|
  {
    forall i | 0 <= i < |ids| ensures ids[i] < |fat| {
      ChainLinks(fat, first, ids, i);
    }
  }

  /** A table and a first cluster have at most one chain. */
  lemma {:induction false} ChainUnique(fat: seq<byte>, first: nat, ids: seq<nat>, ids': seq<nat>)
    requires Chain(fat, first, ids) && Chain(fat, first, ids')
    ensures ids == ids'
    decreases |ids|
  {
    if ids != [] {
      ChainUnique(fat, NextCluster(fat, first), ids[1..], ids'[1..]);
      assert ids == [ids[0]] + ids[1..] && ids' == [ids'[0]] + ids'[1..];
    }
  }

  lemma {:induction false} ChainSuffix(fat: seq<byte>, first: nat, ids: seq<nat>, k: nat)
    requires Chain(fat, first, ids) && k <= |ids|
    ensures Chain(fat, Reached(fat, ids, k), ids[k..])
    decreases k
  {
    if k == 0 {
      assert ids[0..] == ids;
    } else {
      ChainSuffix(fat, NextCluster(fat, first), ids[1..], k - 1);
      assert ids[1..][k - 1..] == ids[k..];
    }
  }

  /** Conversely, a chain that ends repeats no cluster. */
  lemma EndsAcyclic(fat: seq<byte>, first: nat, ids: seq<nat>)
    requires Chain(fat, first, ids)
    ensures NoDup(ids)
  {
    forall i, j | 0 <= i < j < |ids| ensures ids[i] != ids[j] {
      ChainSuffix(fat, first, ids, i);
      ChainSuffix(fat, first, ids, j);
      if ids[i] == ids[j] {
        ChainUnique(fat, ids[i], ids[i..], ids[j..]);
      }
    }
  }

  // ---- File contents.

  /** struct fat12_info, the fields used here; all are uint32_t. */
  datatype Info = Info(bytesPerSector: nat, sectorsPerCluster: nat, fatSectors: nat, fatOffset: nat, dataOffset: nat)

  function Mul32(a: nat, b: nat): nat {
    a * b % TWO32
  }

  function Add32(a: nat, b: nat): nat {
    (a + b) % TWO32
  }

  function ClusterBytes(info: Info): nat {
    Mul32(info.bytesPerSector, info.sectorsPerCluster)
  }

  /** device_bytes_offset of read_cluster; ids 0 and 1 give a cluster number below 0, which wraps. */
  function ClusterOffset(info: Info, id: nat): nat {
    var number := if id >= 2 then id - 2 else id - 2 + TWO32;
    Mul32(Add32(info.dataOffset, Mul32(number, info.sectorsPerCluster)), info.bytesPerSector)
  }

  /** On a volume below 4 GiB a data cluster lies where the layout puts it. */
  lemma ClusterPlace(info: Info, id: nat)
    requires id >= 2 && (info.dataOffset + (id - 2) * info.sectorsPerCluster) * info.bytesPerSector < TWO32
    requires info.bytesPerSector > 0
    ensures ClusterOffset(info, id) == (info.dataOffset + (id - 2) * info.sectorsPerCluster) * info.bytesPerSector
  {
    hide Mul32, Add32;
    var part := (id - 2) * info.sectorsPerCluster;
    var sector := info.dataOffset + part;
    Multiple(sector, info.bytesPerSector);
    NoWrap(id - 2, info.sectorsPerCluster);
    NoWrap(sector, info.bytesPerSector);
    NoCarry(info.dataOffset, part);
  }

  lemma NoCarry(a: nat, b: nat)
    ensures a + b < TWO32 ==> Add32(a, b) == a + b
  {
  }

  lemma Multiple(a: nat, b: nat)
    requires b > 0
    ensures a <= a * b
  {
  }

  lemma NoWrap(a: nat, b: nat)
    ensures a * b < TWO32 ==> Mul32(a, b) == a * b
  {
  }

  /** The clusters of a chain, end to end, as the device holds them. */
  ghost function Content(dev: Device, info: Info, ids: seq<nat>): seq<byte>
    requires DeviceOk(dev)
  {
    if ids == [] then []
    else Content(dev, info, ids[..|ids| - 1]) + FlatRange(dev, ClusterOffset(info, ids[|ids| - 1]), ClusterBytes(info))
  }

  ghost predicate ClustersInside(dev: Device, info: Info, ids: seq<nat>) {
    forall i :: 0 <= i < |ids| ==> Inside(dev, ClusterOffset(info, ids[i]), ClusterBytes(info))
  }

  function FatBytes(info: Info): nat {
    Mul32(info.fatSectors, info.bytesPerSector)
  }

  function FatPlace(info: Info): nat {
    Mul32(info.bytesPerSector, info.fatOffset)
  }

  /** The table as it lies on the device. */
  ghost function Table(dev: Device, info: Info): seq<byte>
    requires DeviceOk(dev)
  {
    FlatRange(dev, FatPlace(info), FatBytes(info))
  }

  /** On a volume below 4 GiB the table is the sectors that the layout gives it. */
  lemma TablePlace(dev: Device, info: Info)
    requires DeviceOk(dev) && info.fatOffset * info.bytesPerSector < TWO32 && info.fatSectors * info.bytesPerSector < TWO32
    ensures |Table(dev, info)| == info.fatSectors * info.bytesPerSector
    ensures forall k :: 0 <= k < |Table(dev, info)| ==>
              Table(dev, info)[k] == FlatByte(dev, info.fatOffset * info.bytesPerSector + k)
  {
    hide Mul32, FlatByte, DeviceOk;
    NoWrap(info.fatSectors, info.bytesPerSector);
    NoWrap(info.bytesPerSector, info.fatOffset);
    Commutes(info.bytesPerSector, info.fatOffset);
  }

  lemma Commutes(a: nat, b: nat)
    ensures a * b == b * a
  {
  }

  /** get_fat and pread_device */
  method GetFat(dev: Device, info: Info) returns (fat: seq<byte>)
    requires DeviceOk(dev) && dev.blockSize <= MAX_BLOCK_SIZE && Inside(dev, FatPlace(info), FatBytes(info))
    ensures fat == Table(dev, info)
  {
    hide Holds, Inside, FlatRange, DeviceOk;
    var buf := new byte[FatBytes(info)];
    var n := ReadBytes(dev, FatPlace(info), buf, FatBytes(info));
    HoldsRange(dev, FatPlace(info), buf[..], FatBytes(info));
    assert buf[..][..FatBytes(info)] == buf[..];
    return buf[..];
  }

  /** read_cluster */
  method ReadCluster(dev: Device, info: Info, id: nat) returns (data: seq<byte>)
    requires DeviceOk(dev) && dev.blockSize <= MAX_BLOCK_SIZE && Inside(dev, ClusterOffset(info, id), ClusterBytes(info))
    ensures data == FlatRange(dev, ClusterOffset(info, id), ClusterBytes(info))
  {
    hide Holds, Inside, FlatRange, DeviceOk;
    var buf := new byte[ClusterBytes(info)];
    var n := ReadBytes(dev, ClusterOffset(info, id), buf, ClusterBytes(info));
    HoldsRange(dev, ClusterOffset(info, id), buf[..], ClusterBytes(info));
    assert buf[..][..ClusterBytes(info)] == buf[..];
    return buf[..];
  }

  /** A directory entry: the first byte of the name, the attributes, and the fields that locate the data. */
  datatype DirEntry = DirEntry(name0: byte, attributes: byte, firstCluster: nat, fileSize: nat)

  predicate IsDirectory(e: DirEntry) {
    e.attributes / 16 % 2 == 1
  }

  /** What get_file_content returns: the buffer and a size, or the heap's panic on a request for nothing. */
  datatype Contents = Contents(buffer: seq<byte>, size: nat) | EmptyRequest

  /** get_file_content: the buffer is the clusters of the chain in order. */
  method GetFileContent(dev: Device, info: Info, entry: DirEntry, ghost ids: seq<nat>) returns (out: Contents)
    requires DeviceOk(dev) && dev.blockSize <= MAX_BLOCK_SIZE && Inside(dev, FatPlace(info), FatBytes(info))
    requires Chain(Table(dev, info), entry.firstCluster, ids) && ClustersInside(dev, info, ids)
    ensures out == EmptyRequest <==> |ids| == 0 || ClusterBytes(info) == 0
    ensures out.Contents? ==>
              && out.buffer == Content(dev, info, ids)
              && out.size == if IsDirectory(entry) then Mul32(ClusterBytes(info), |ids| % TWO32) else entry.fileSize
  {
    hide Inside, FlatRange, DeviceOk, ClusterOffset, ClusterBytes, FatPlace, FatBytes, NextCluster;
    var bytes := ClusterBytes(info);
    var fat := GetFat(dev, info);
    var count := CountFileClusters(entry.firstCluster, fat, ids);
    if count == 0 || bytes == 0 {
      return EmptyRequest;
    }
    var buffer := new byte[count * bytes];
    var cluster, at := entry.firstCluster, 0;
    ChainLinks(fat, entry.firstCluster, ids, 0);
    assert ids[..0] == [] && buffer[..0] == [];
    for i := 0 to count
      invariant cluster == Reached(fat, ids, i) && at == |Content(dev, info, ids[..i])| <= buffer.Length
      invariant buffer[..at] == Content(dev, info, ids[..i])
    {
      ContentFits(dev, info, ids, i);
      var data := ReadCluster(dev, info, cluster);
      CopyBytes(buffer, at, data, 0, bytes);
      ContentNext(dev, info, ids, i);
      assert buffer[..at + bytes] == buffer[..at] + data;
      at := at + bytes;
      ChainLinks(fat, entry.firstCluster, ids, i);
      cluster := NextCluster(fat, cluster);
    }
    assert ids[..count] == ids;
    ContentLength(dev, info, ids);
    assert buffer[..at] == buffer[..];
    return Contents(buffer[..], if IsDirectory(entry) then Mul32(bytes, count % TWO32) else entry.fileSize);
  }

  /** There is room for cluster i. */
  lemma ContentFits(dev: Device, info: Info, ids: seq<nat>, i: nat)
    requires DeviceOk(dev) && i < |ids|
    ensures |Content(dev, info, ids[..i])| + ClusterBytes(info) <= |ids| * ClusterBytes(info)
    ensures |FlatRange(dev, ClusterOffset(info, ids[i]), ClusterBytes(info))| == ClusterBytes(info)
  {
    hide ClusterBytes, ClusterOffset;
    var bytes := ClusterBytes(info);
    ContentLength(dev, info, ids[..i]);
    assert i * bytes + bytes == (i + 1) * bytes <= |ids| * bytes;
  }

  lemma ContentNext(dev: Device, info: Info, ids: seq<nat>, i: nat)
    requires DeviceOk(dev) && i < |ids|
    ensures Content(dev, info, ids[..i + 1]) ==
            Content(dev, info, ids[..i]) + FlatRange(dev, ClusterOffset(info, ids[i]), ClusterBytes(info))
  {
    assert ids[..i + 1][..i] == ids[..i];
  }

  /** Byte j of cluster k of the chain is where a reader expects it. */
  lemma {:induction false} ContentByte(dev: Device, info: Info, ids: seq<nat>, k: nat, j: nat)
    requires DeviceOk(dev) && k < |ids| && j < ClusterBytes(info)
    ensures |Content(dev, info, ids)| == |ids| * ClusterBytes(info)
    ensures k * ClusterBytes(info) + j < |Content(dev, info, ids)|
    ensures Content(dev, info, ids)[k * ClusterBytes(info) + j] == FlatByte(dev, ClusterOffset(info, ids[k]) + j)
    decreases |ids|
  {
    hide ClusterBytes, ClusterOffset, FlatByte, DeviceOk;
    var n, bytes := |ids| - 1, ClusterBytes(info);
    ContentLength(dev, info, ids[..n]);
    assert |Content(dev, info, ids)| == n * bytes + bytes == |ids| * bytes;
    if k < n {
      ContentByte(dev, info, ids[..n], k, j);
      assert k * bytes + j < n * bytes;
    } else {
      assert k * bytes + j - n * bytes == j;
    }
  }

  /** On a volume below 4 GiB, byte j of cluster k of a file is byte j of the sectors that the layout gives that cluster. */
  lemma ContentPlace(dev: Device, info: Info, ids: seq<nat>, k: nat, j: nat, bytes: nat, place: nat)
    requires DeviceOk(dev) && k < |ids| && ids[k] >= 2 && info.bytesPerSector > 0
    requires bytes == info.sectorsPerCluster * info.bytesPerSector && j < bytes < TWO32
    requires place == (info.dataOffset + (ids[k] - 2) * info.sectorsPerCluster) * info.bytesPerSector < TWO32
    ensures |Content(dev, info, ids)| == |ids| * bytes
    ensures k * bytes + j < |Content(dev, info, ids)| && Content(dev, info, ids)[k * bytes + j] == FlatByte(dev, place + j)
  {
    hide Content, ClusterOffset, FlatByte, DeviceOk, Mul32;
    ClusterPlace(info, ids[k]);
    Commutes(info.bytesPerSector, info.sectorsPerCluster);
    NoWrap(info.bytesPerSector, info.sectorsPerCluster);
    ContentByte(dev, info, ids, k, j);
  }

  lemma {:induction false} ContentLength(dev: Device, info: Info, ids: seq<nat>)
    requires DeviceOk(dev)
    ensures |Content(dev, info, ids)| == |ids| * ClusterBytes(info)
    decreases |ids|
  {
    if ids != [] {
      ContentLength(dev, info, ids[..|ids| - 1]);
      assert |ids| * ClusterBytes(info) == (|ids| - 1) * ClusterBytes(info) + ClusterBytes(info);
    }
  }

  // ---- Directories.

  predicate IsFinal(e: DirEntry) {
    e.name0 == 0
  }

  /** Neither deleted nor a volume label (which long-name entries are too). */
  predicate IsListed(e: DirEntry) {
    e.name0 != 0xE5 && e.attributes / 8 % 2 == 0
  }

  /** Index of the entry that ends the directory, from i on; the table's length if there is none. */
  ghost function EndOf(entries: seq<DirEntry>, i: nat): (n: nat)
    requires i <= |entries|
    ensures i <= n <= |entries| && (forall k :: i <= k < n ==> !IsFinal(entries[k])) && (n < |entries| ==> IsFinal(entries[n]))
    decreases |entries| - i
  {
    if i == |entries| || IsFinal(entries[i]) then i else EndOf(entries, i + 1)
  }

  /** The files and directories among the first n entries, in order. */
  ghost function Listed(entries: seq<DirEntry>, n: nat): seq<DirEntry>
    requires n <= |entries|
  {
    if n == 0 then [] else Listed(entries, n - 1) + if IsListed(entries[n - 1]) then [entries[n - 1]] else []
  }

  lemma {:induction false} ListedGrows(entries: seq<DirEntry>, m: nat, n: nat)
    requires m <= n <= |entries|
    ensures Listed(entries, m) <= Listed(entries, n)
    ensures m < n && IsListed(entries[m]) ==> |Listed(entries, m)| < |Listed(entries, n)|
  {
    if m < n {
      ListedGrows(entries, m, n - 1);
    }
  }

  /** count_valid_entries */
  method CountValidEntries(entries: seq<DirEntry>, includeAll: bool) returns (count: nat)
    ensures count == if includeAll then EndOf(entries, 0) else |Listed(entries, EndOf(entries, 0))|
  {
    count := 0;
    var i := 0;
    while i < |entries|
      invariant i <= |entries| && EndOf(entries, 0) == EndOf(entries, i)
      invariant count == if includeAll then i else |Listed(entries, i)|
    {
      if IsFinal(entries[i]) {
        break;
      }
      if includeAll || IsListed(entries[i]) {
        count := count + 1;
      }
      i := i + 1;
    }
  }

  /** filter_valid_directory_entries: keeps exactly the listed entries before the end, and counts what it keeps. An empty
      result is a request for 0 bytes, on which the heap panics. */
  method FilterValidEntries(entries: seq<DirEntry>) returns (panic: bool, kept: array<DirEntry>, count: nat)
    ensures panic <==> Listed(entries, EndOf(entries, 0)) == []
    ensures !panic ==> kept[..] == Listed(entries, EndOf(entries, 0)) && count == kept.Length
  {
    count := CountValidEntries(entries, false);
    kept := new DirEntry[count];
    if count == 0 {
      return true, kept, 0;
    }
    ghost var end := EndOf(entries, 0);
    var i, next := 0, 0;
    while i < |entries|
      invariant i <= |entries| && end == EndOf(entries, i) && next == |Listed(entries, i)| <= count
      invariant kept[..next] == Listed(entries, i)
    {
      ListedGrows(entries, i, end);
      if IsFinal(entries[i]) {
        break;
      }
      if IsListed(entries[i]) {
        kept[next] := entries[i];
        assert kept[..next + 1] == kept[..next] + [entries[i]];
        next := next + 1;
      }
      i := i + 1;
    }
    assert kept[..next] == kept[..];
    return false, kept, count;
  }
}
