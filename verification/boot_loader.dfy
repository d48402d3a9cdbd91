/** The boot loader: `readseg` and `bootmain` of schedos-boot.c, reading the kernel from disk. */
module BootLoader {
  import opened Memory
  import opened Elf
  import opened DiskImage

  const PAGESIZE: nat := 4096

  /** Where the loader keeps the first page of the kernel image. */
  const ELFHDR: nat := 0x1_0000

  type Sector = s: seq<byte> | |s| == SECTORSIZE witness Zeros(SECTORSIZE)

  /** A disk: what the drive delivers for each sector number. */
  type Disk = nat -> Sector

  /** Byte `i` of the kernel file, which is stored from sector 1 on. */
  function KernelByte(disk: Disk, i: nat): byte {
    disk(1 + i / SECTORSIZE)[i % SECTORSIZE]
  }

  // ----- readseg -----

  /** Byte `k` of the sectors from `sect` on. */
  function SectorByte(disk: Disk, sect: nat, k: nat): byte {
    disk(sect + k / SECTORSIZE)[k % SECTORSIZE]
  }

  /** The arguments of `readseg`. */
  datatype Load = Load(va: nat, filesz: nat, memsz: nat, sect: nat) {
    function Base(): nat {
      RoundDown(va, SECTORSIZE)
    }

    function End(): nat {
      RoundUp(va + filesz, SECTORSIZE)
    }

    /** The addresses `readseg` may write: whole sectors, and the part to clear. */
    predicate Covers(a: nat) {
      Base() <= a && (a < End() || a < va + memsz)
    }

    /** What it writes there. */
    function Byte(disk: Disk, a: nat): byte
      requires Base() <= a
    {
      if va + filesz <= a < va + memsz then 0
      else SectorByte(disk, sect, a - Base())
    }

    predicate Fits(size: nat) {
      End() <= size && va + memsz <= size
    }
  }

  /** The effect of `readseg`. */
  ghost predicate SegmentRead(disk: Disk, l: Load, m: seq<byte>, m': seq<byte>) {
    |m'| == |m| && forall a: nat | a < |m| :: m'[a] == if l.Covers(a) then l.Byte(disk, a) else m[a]
  }

  /** One sector of the disk, as `insl` stores it. */
  method ReadSect(mem: array<byte>, disk: Disk, va: nat, sect: nat)
    requires va + SECTORSIZE <= mem.Length
    modifies mem
    ensures forall a: nat | a < mem.Length ::
        mem[a] == if va <= a < va + SECTORSIZE then disk(sect)[a - va] else old(mem[a])
  {
    var s := disk(sect);
    forall i | 0 <= i < SECTORSIZE {
      mem[va + i] := s[i];
    }
  }

  /** The first `n` sectors of a segment are in memory from `base` on. */
  ghost predicate SectorsRead(disk: Disk, sect: nat, base: nat, n: nat, m: seq<byte>, m': seq<byte>) {
    && |m'| == |m|
    && forall a: nat | a < |m| ::
        m'[a] == if base <= a < base + SECTORSIZE * n then SectorByte(disk, sect, a - base) else m[a]
  }

  lemma SectorsReadNext(disk: Disk, sect: nat, base: nat, n: nat, m: seq<byte>, m1: seq<byte>, m2: seq<byte>)
    requires SectorsRead(disk, sect, base, n, m, m1) && |m2| == |m1|
    requires var va := base + SECTORSIZE * n;
        forall a: nat | a < |m| :: m2[a] == if va <= a < va + SECTORSIZE then disk(sect + n)[a - va] else m1[a]
    ensures SectorsRead(disk, sect, base, n + 1, m, m2)
  {
  }

  /** `readseg`. Memory ends below 2^32, so no address wraps. */
  method ReadSeg(mem: array<byte>, disk: Disk, l: Load)
    requires mem.Length < 0x1_0000_0000 && l.Fits(mem.Length)
    modifies mem
    ensures SegmentRead(disk, l, old(mem[..]), mem[..])
  {
    hide SectorsRead;
    hide SectorByte;
    hide SegmentRead;
    ghost var was := mem[..];
    var endVa := l.va + l.filesz;
    var memEnd := l.va + l.memsz;
    var va, sect := RoundDown(l.va, SECTORSIZE), l.sect;
    ghost var base, n := va, 0;
    NothingRead(disk, sect, base, was);
    while va < endVa
      invariant n >= 0 && va == base + SECTORSIZE * n && sect == l.sect + n
      invariant va <= l.End()
      invariant SectorsRead(disk, l.sect, base, n, was, mem[..])
    {
      NextSector(base, endVa, n);
      ghost var before := mem[..];
      ReadSect(mem, disk, va, sect);
      SectorsReadNext(disk, l.sect, base, n, was, before, mem[..]);
      va := va + SECTORSIZE;
      sect := sect + 1;
      n := n + 1;
    }
    LastSector(base, endVa, n);
    ghost var read := mem[..];
    while endVa < memEnd
      invariant l.va + l.filesz <= endVa && (endVa <= memEnd || endVa == l.va + l.filesz)
      invariant forall a: nat | a < mem.Length :: mem[a] == if l.va + l.filesz <= a < endVa then 0 else read[a]
    {
      mem[endVa] := 0;
      endVa := endVa + 1;
    }
    Cleared(disk, l, n, was, read, mem[..]);
  }

  lemma NothingRead(disk: Disk, sect: nat, base: nat, m: seq<byte>)
    ensures SectorsRead(disk, sect, base, 0, m, m)
  {
  }

  lemma Cleared(disk: Disk, l: Load, n: nat, m: seq<byte>, m1: seq<byte>, m2: seq<byte>)
    requires l.Base() + SECTORSIZE * n == l.End() && SectorsRead(disk, l.sect, l.Base(), n, m, m1) && |m2| == |m1|
    requires forall a: nat | a < |m| :: m2[a] == if l.va + l.filesz <= a < l.va + l.memsz then 0 else m1[a]
    ensures SegmentRead(disk, l, m, m2)
  {
  }

  lemma NextSector(base: nat, end: nat, n: nat)
    requires base % SECTORSIZE == 0 && base + SECTORSIZE * n < end
    ensures base + SECTORSIZE * (n + 1) <= RoundUp(end, SECTORSIZE)
  {
  }

  lemma LastSector(base: nat, end: nat, n: nat)
    requires base % SECTORSIZE == 0 && end <= base + SECTORSIZE * n <= RoundUp(end, SECTORSIZE)
    ensures base + SECTORSIZE * n == RoundUp(end, SECTORSIZE)
  {
  }

  // ----- What readseg leaves in memory -----

  /** Bytes of the kernel file. */
  function KernelBytes(disk: Disk, offset: nat, n: nat): (s: seq<byte>)
    ensures |s| == n
  {
    seq<byte>(n, i requires 0 <= i < n => KernelByte(disk, offset + i))
  }

  /** A segment of the kernel file is loaded. */
  ghost predicate Loaded(disk: Disk, ph: Proghdr, m: seq<byte>) {
    InMemory(ph, KernelBytes(disk, ph.offset, ph.filesz), m)
  }

  /** The call `bootmain` makes for a program header. */
  function LoadOf(ph: Proghdr): Load {
    Load(ph.va, ph.filesz, ph.memsz, 1 + ph.offset / SECTORSIZE)
  }

  /** The address and the offset in the file have the same place in their sectors. */
  predicate Congruent(ph: Proghdr) {
    ph.va % SECTORSIZE == ph.offset % SECTORSIZE
  }

  lemma ByteOfLoad(disk: Disk, ph: Proghdr, i: nat)
    requires ph.memsz <= i || i < ph.filesz
    ensures LoadOf(ph).Byte(disk, ph.va + i)
         == KernelByte(disk, ph.offset - ph.offset % SECTORSIZE + ph.va % SECTORSIZE + i)
  {
  }

  /** `readseg` loads a segment, whatever the disk holds, exactly when the segment is congruent or has
      no file bytes. */
  lemma LoadedIff(ph: Proghdr, m: seq<byte>)
    requires LoadOf(ph).Fits(|m|)
    ensures Congruent(ph) || ph.filesz == 0 <==>
        forall disk: Disk, m': seq<byte> | SegmentRead(disk, LoadOf(ph), m, m') :: Loaded(disk, ph, m')
  {
    if Congruent(ph) || ph.filesz == 0 {
      forall disk: Disk, m': seq<byte> | SegmentRead(disk, LoadOf(ph), m, m') ensures Loaded(disk, ph, m') {
        CongruentLoads(disk, ph, m, m');
      }
    } else {
      var at := ph.offset - ph.offset % SECTORSIZE + ph.va % SECTORSIZE;
      var disk := MarkedDisk(at);
      var m' := AfterRead(disk, LoadOf(ph), m);
      ByteOfLoad(disk, ph, 0);
      MarkedByte(at, at);
      MarkedByte(at, ph.offset);
      assert m'[ph.va] != KernelByte(disk, ph.offset);
      assert m'[ph.va..ph.va + ph.filesz][0] != KernelBytes(disk, ph.offset, ph.filesz)[0];
    }
  }

  lemma CongruentLoads(disk: Disk, ph: Proghdr, m: seq<byte>, m': seq<byte>)
    requires (Congruent(ph) || ph.filesz == 0) && LoadOf(ph).Fits(|m|) && SegmentRead(disk, LoadOf(ph), m, m')
    ensures Loaded(disk, ph, m')
  {
    hide KernelByte;
    forall i | 0 <= i < ph.filesz ensures m'[ph.va + i] == KernelBytes(disk, ph.offset, ph.filesz)[i] {
      ByteOfLoad(disk, ph, i);
      assert LoadOf(ph).Covers(ph.va + i);
    }
    forall a: nat | ph.va + ph.filesz <= a < ph.va + ph.memsz ensures m'[a] == 0 {
      assert LoadOf(ph).Covers(a);
    }
  }

  function AfterRead(disk: Disk, l: Load, m: seq<byte>): (m': seq<byte>)
    ensures SegmentRead(disk, l, m, m')
  {
    seq(|m|, a requires 0 <= a < |m| => if l.Covers(a) then l.Byte(disk, a) else m[a])
  }

  /** A disk whose only nonzero byte is byte `at` of the kernel. */
  function MarkedDisk(at: nat): Disk {
    s => seq(SECTORSIZE, i => if s == 1 + at / SECTORSIZE && i == at % SECTORSIZE then 1 else 0)
  }

  lemma MarkedByte(at: nat, i: nat)
    ensures KernelByte(MarkedDisk(at), i) == if i == at then 1 else 0
  {
  }

  // ----- bootmain -----

  /** The first page of the kernel file. */
  function Page(disk: Disk): (m: seq<byte>)
    ensures |m| == PAGESIZE
  {
    seq(PAGESIZE, i requires 0 <= i < PAGESIZE => KernelByte(disk, i))
  }

  const HEADER_PAGE: Load := Load(ELFHDR, PAGESIZE, PAGESIZE, 1)

  ghost predicate Apart(l: Load, l': Load) {
    forall a: nat | l.Covers(a) :: !l'.Covers(a)
  }

  function LoadAt(page: seq<byte>, j: nat): Load
    requires HasProghdrs(page, 0) && j < PhNum(page, 0)
  {
    LoadOf(Segment(page, 0, j))
  }

  /** The headers are in the page, and the segments fit in memory, apart from each other and from
      the page, counted in whole sectors. */
  ghost predicate Bootable(page: seq<byte>, size: nat) {
    && HasProghdrs(page, 0)
    && (forall j: nat | j < PhNum(page, 0) :: LoadAt(page, j).Fits(size) && Apart(LoadAt(page, j), HEADER_PAGE))
    && (forall j: nat, k: nat | j < k < PhNum(page, 0) :: Apart(LoadAt(page, j), LoadAt(page, k)))
  }

  /** Memory after the header page and the first `n` segments have been read. */
  ghost predicate Booted(disk: Disk, page: seq<byte>, n: nat, m: seq<byte>, m': seq<byte>)
    requires HasProghdrs(page, 0) && n <= PhNum(page, 0)
  {
    && |m'| == |m|
    && (forall a: nat | a < |m| && HEADER_PAGE.Covers(a) :: m'[a] == HEADER_PAGE.Byte(disk, a))
    && (forall j: nat, a: nat | j < n && a < |m| && LoadAt(page, j).Covers(a) :: m'[a] == LoadAt(page, j).Byte(disk, a))
    && (forall a: nat | a < |m| && Elsewhere(page, n, a) :: m'[a] == m[a])
  }

  ghost predicate Elsewhere(page: seq<byte>, n: nat, a: nat)
    requires HasProghdrs(page, 0) && n <= PhNum(page, 0)
  {
    !HEADER_PAGE.Covers(a) && forall j: nat | j < n :: !LoadAt(page, j).Covers(a)
  }

  lemma BootedStep(disk: Disk, page: seq<byte>, n: nat, m: seq<byte>, m1: seq<byte>, m2: seq<byte>)
    requires Bootable(page, |m|) && n < PhNum(page, 0)
    requires Booted(disk, page, n, m, m1) && SegmentRead(disk, LoadAt(page, n), m1, m2)
    ensures Booted(disk, page, n + 1, m, m2)
  {
    hide HasProghdrs;
    var l := LoadAt(page, n);
    forall a: nat | a < |m| && HEADER_PAGE.Covers(a) ensures m2[a] == HEADER_PAGE.Byte(disk, a) {
      assert Apart(l, HEADER_PAGE);
      assert !l.Covers(a);
    }
    forall j: nat, a: nat | j < n + 1 && a < |m| && LoadAt(page, j).Covers(a)
      ensures m2[a] == LoadAt(page, j).Byte(disk, a)
    {
      if j < n {
        assert Apart(LoadAt(page, j), l);
        assert !l.Covers(a);
      }
    }
    forall a: nat | a < |m| && Elsewhere(page, n + 1, a) ensures m2[a] == m[a] {
      assert !l.Covers(a);
      assert Elsewhere(page, n, a);
    }
  }

  lemma BootedStart(disk: Disk, page: seq<byte>, m: seq<byte>, m': seq<byte>)
    requires HasProghdrs(page, 0) && SegmentRead(disk, HEADER_PAGE, m, m')
    ensures Booted(disk, page, 0, m, m')
  {
  }

  /** The page in memory holds the page of the disk. */
  lemma PageInMemory(disk: Disk, m: seq<byte>, m': seq<byte>)
    requires ELFHDR + PAGESIZE <= |m| && SegmentRead(disk, HEADER_PAGE, m, m')
    ensures Same(m', ELFHDR, Page(disk), 0, PAGESIZE)
  {
  }

  /** Loading segments leaves the page as it is. */
  lemma PageStays(disk: Disk, page: seq<byte>, n: nat, m: seq<byte>, m': seq<byte>)
    requires ELFHDR + PAGESIZE <= |m| && page == Page(disk)
    requires HasProghdrs(page, 0) && n <= PhNum(page, 0) && Booted(disk, page, n, m, m')
    ensures Same(m', ELFHDR, page, 0, PAGESIZE)
  {
  }

  datatype Boot = Returned | Jumped(entry: nat)

  lemma BrandOnDisk(disk: Disk)
    ensures Magic(Page(disk), 0) == ELF_MAGIC <==> disk(1)[..4] == [0x7F, 'E' as int, 'L' as int, 'F' as int]
  {
    BrandedIff(Page(disk), 0);
    hide Magic;
    assert disk(1)[..4] == Page(disk)[0..4];
  }

  /** `bootmain`. */
  method BootMain(mem: array<byte>, disk: Disk) returns (o: Boot)
    requires ELFHDR + PAGESIZE <= mem.Length < 0x1_0000_0000
    requires Magic(Page(disk), 0) == ELF_MAGIC ==> Bootable(Page(disk), mem.Length)
    modifies mem
    ensures Magic(Page(disk), 0) != ELF_MAGIC ==> o == Returned && SegmentRead(disk, HEADER_PAGE, old(mem[..]), mem[..])
    ensures Magic(Page(disk), 0) == ELF_MAGIC ==>
        && o == Jumped(Entry(Page(disk), 0))
        && Booted(disk, Page(disk), PhNum(Page(disk), 0), old(mem[..]), mem[..])
    ensures o.Jumped? <==> disk(1)[..4] == [0x7F, 'E' as int, 'L' as int, 'F' as int]
  {
    hide Booted;
    hide SegmentRead;
    hide Same;
    hide Page;
    hide ProghdrAt;
    hide Word;
    hide Half;
    ghost var page := Page(disk);
    ghost var was := mem[..];
    BrandOnDisk(disk);
    ReadSeg(mem, disk, HEADER_PAGE);
    PageInMemory(disk, was, mem[..]);
    SameHeader(mem[..], ELFHDR, page, 0, PAGESIZE);
    if Magic(mem[..], ELFHDR) != ELF_MAGIC {
      return Returned;
    }
    var ph := ELFHDR + PhOff(mem[..], ELFHDR);
    var eph := ph + PROGHDR_SIZE * PhNum(mem[..], ELFHDR);
    ghost var n := 0;
    BootedStart(disk, page, was, mem[..]);
    while ph < eph
      invariant 0 <= n <= PhNum(page, 0) && ph == ELFHDR + PhOff(page, 0) + PROGHDR_SIZE * n
      invariant Booted(disk, page, n, was, mem[..])
    {
      ghost var before := mem[..];
      PageStays(disk, page, n, was, before);
      SameProghdr(before, ELFHDR, page, 0, PAGESIZE, ph - ELFHDR);
      var p := ProghdrAt(mem[..], ph);
      assert LoadOf(p) == LoadAt(page, n);
      ReadSeg(mem, disk, LoadOf(p));
      BootedStep(disk, page, n, was, before, mem[..]);
      ph := ph + PROGHDR_SIZE;
      n := n + 1;
    }
    PageStays(disk, page, n, was, mem[..]);
    SameHeader(mem[..], ELFHDR, page, 0, PAGESIZE);
    o := Jumped(Entry(mem[..], ELFHDR));
  }
}
