/** The kernel byte by byte: from the structures that the linker stores, over the disk, to memory. */
module StoredKernel {
  import opened Memory
  import opened Elf
  import opened ElfLayout
  import opened DiskImage
  import opened BootLoader
  import opened StoredPrograms
  import C = BootChain

  /** The addresses that are written for a segment: whole sectors, and the part to clear. */
  predicate Touches(p: ProgramHeader, a: nat) {
    p.va / 512 * 512 <= a && (a / 512 * 512 < p.va + p.filesz || a < p.va + p.memsz)
  }

  /** Its bytes are in the file, at the same place in their sector as in memory, and it keeps off the page
      at 0x10000. */
  ghost predicate Fitting(p: ProgramHeader, fileSize: nat, size: nat) {
    && p.offset + p.filesz <= fileSize && p.va % 512 == p.offset % 512
    && (p.va + p.filesz + 511) / 512 * 512 <= size && p.va + p.memsz <= size
    && forall a: nat | Touches(p, a) :: a < 0x1_0000 || 0x1_1000 <= a
  }

  ghost predicate Separate(p: ProgramHeader, p': ProgramHeader) {
    forall a: nat | Touches(p, a) :: !Touches(p', a)
  }

  /** What the linker guarantees, for segments of any type. */
  ghost predicate KernelLinked(x: Executable, fileSize: nat, size: nat) {
    && x.header.phoff + 32 * |x.segments| <= 4096 && x.header.phoff + 32 * |x.segments| <= fileSize
    && (forall j | 0 <= j < |x.segments| :: Fitting(x.segments[j], fileSize, size))
    && (forall j, k | 0 <= j < k < |x.segments| :: Separate(x.segments[j], x.segments[k]))
  }

  lemma TouchesIff(x: Executable, j: nat, a: nat)
    requires j < |x.segments|
    ensures LoadOf(Read(x, j)).Covers(a) <==> Touches(x.segments[j], a)
  {
    var p := x.segments[j];
    SectorEnds(p.va + p.filesz, a);
  }

  lemma SectorEnds(end: nat, a: nat)
    ensures a < RoundUp(end, SECTORSIZE) <==> a / 512 * 512 < end
    ensures RoundUp(end, SECTORSIZE) == (end + 511) / 512 * 512
  {
  }

  lemma FittingLoads(x: Executable, j: nat, fileSize: nat, size: nat)
    requires j < |x.segments| && Fitting(x.segments[j], fileSize, size)
    ensures Congruent(Read(x, j)) && LoadOf(Read(x, j)).Fits(size) && Apart(LoadOf(Read(x, j)), HEADER_PAGE)
  {
    var p := x.segments[j];
    SectorEnds(p.va + p.filesz, 0);
    forall a: nat | LoadOf(Read(x, j)).Covers(a) ensures !HEADER_PAGE.Covers(a) {
      TouchesIff(x, j, a);
    }
  }

  lemma SeparateLoads(x: Executable, j: nat, k: nat)
    requires j < |x.segments| && k < |x.segments| && Separate(x.segments[j], x.segments[k])
    ensures Apart(LoadOf(Read(x, j)), LoadOf(Read(x, k)))
  {
    forall a: nat | LoadOf(Read(x, j)).Covers(a) ensures !LoadOf(Read(x, k)).Covers(a) {
      TouchesIff(x, j, a);
      TouchesIff(x, k, a);
    }
  }

  lemma LinkedIsLoadable(kernel: seq<byte>, x: Executable, size: nat)
    requires Stored(kernel, 0, x) && KernelLinked(x, |kernel|, size)
    ensures C.Loadable(kernel, size)
  {
    HeadersRead(kernel, 0, x);
    OffsetRead(kernel, 0, x);
    hide Stored;
    hide Segment;
    hide HasProghdrs;
    hide PhOff;
    hide PhNum;
    hide Congruent;
    hide LoadOf;
    hide Apart;
    hide Separate;
    forall j: nat | j < |x.segments|
      ensures Congruent(Read(x, j)) && LoadOf(Read(x, j)).Fits(size) && Apart(LoadOf(Read(x, j)), HEADER_PAGE)
    {
      FittingLoads(x, j, |kernel|, size);
    }
    forall j: nat, k: nat | j < k < |x.segments| ensures Apart(LoadOf(Read(x, j)), LoadOf(Read(x, k))) {
      SeparateLoads(x, j, k);
    }
  }

  lemma FirstBytes(boot: seq<byte>, args: seq<Arg>, disk: Disk)
    requires Makeable(boot, args) && args != [] && args[0].File? && C.Presents(disk, Image(boot, args))
    requires |args[0].content| >= 4
    ensures disk(1)[..4] == args[0].content[..4]
  {
    hide Makeable;
    hide Image;
    forall i | 0 <= i < 4 ensures disk(1)[i] == args[0].content[i] {
      C.KernelOnDisk(boot, args, disk, i);
    }
  }

  lemma InMemoryIsArrived(kernel: seq<byte>, x: Executable, j: nat, m': seq<byte>)
    requires j < |x.segments| && Read(x, j).offset + Read(x, j).filesz <= |kernel|
    requires InMemory(Read(x, j), kernel[Read(x, j).offset..Read(x, j).offset + Read(x, j).filesz], m')
    ensures Arrived(kernel, 0, x.segments[j], m')
  {
  }
  lemma KernelReady(boot: seq<byte>, args: seq<Arg>, disk: Disk, x: Executable, size: nat)
    requires Makeable(boot, args) && args != [] && args[0].File? && C.Presents(disk, Image(boot, args))
    requires Stored(args[0].content, 0, x) && KernelLinked(x, |args[0].content|, size)
    ensures C.Loadable(args[0].content, size) && Bootable(Page(disk), size)
    ensures HasHeader(Page(disk), 0) && HasProghdrs(Page(disk), 0)
    ensures HasProghdrs(args[0].content, 0) && PhNum(args[0].content, 0) == |x.segments|
    ensures Entry(Page(disk), 0) == x.header.entry && PhNum(Page(disk), 0) == |x.segments|
    ensures forall j: nat | j < |x.segments| :: Segment(args[0].content, 0, j) == Read(x, j)
  {
    hide Makeable;
    hide Image;
    hide Page;
    hide Stored;
    hide C.Loadable;
    hide Segment;
    hide Entry;
    hide HasProghdrs;
    hide LoadAt;
    hide Apart;
    hide Fitting;
    hide Separate;
    hide C.Presents;
    LinkedIsLoadable(args[0].content, x, size);
    HeadersRead(args[0].content, 0, x);
    C.LoadableIsBootable(boot, args, disk, size);
  }

  lemma InsideFile(x: Executable, fileSize: nat, size: nat, j: nat)
    requires KernelLinked(x, fileSize, size) && j < |x.segments|
    ensures Read(x, j).offset + Read(x, j).filesz <= fileSize
  {
    hide Touches;
    hide Separate;
  }

  lemma SegmentAsStored(boot: seq<byte>, args: seq<Arg>, disk: Disk, x: Executable, m: seq<byte>, m': seq<byte>,
                        j: nat)
    requires Makeable(boot, args) && args != [] && args[0].File? && C.Presents(disk, Image(boot, args))
    requires Stored(args[0].content, 0, x) && KernelLinked(x, |args[0].content|, |m|) && j < |x.segments|
    requires Bootable(Page(disk), |m|) && Booted(disk, Page(disk), PhNum(Page(disk), 0), m, m')
    ensures Arrived(args[0].content, 0, x.segments[j], m')
  {
    hide *;
    KernelReady(boot, args, disk, x, |m|);
    InsideFile(x, |args[0].content|, |m|, j);
    C.LinkedIsLoaded(boot, args, disk, m, m', j);
    InMemoryIsArrived(args[0].content, x, j, m');
  }

  /** From the linker to memory: the disk that holds the kernel file starts with its four bytes, `bootmain`
      can load it, and afterwards every segment, of whatever type, is in memory as it was stored and the
      entry point is the one in the header. */
  lemma KernelAsStored(boot: seq<byte>, args: seq<Arg>, disk: Disk, x: Executable, m: seq<byte>, m': seq<byte>)
    requires Makeable(boot, args) && args != [] && args[0].File? && C.Presents(disk, Image(boot, args))
    requires Stored(args[0].content, 0, x) && KernelLinked(x, |args[0].content|, |m|)
    ensures Bootable(Page(disk), |m|) && Entry(Page(disk), 0) == x.header.entry
    ensures |args[0].content| >= 52 && disk(1)[..4] == args[0].content[..4]
    ensures Booted(disk, Page(disk), PhNum(Page(disk), 0), m, m') ==>
            forall j | 0 <= j < |x.segments| :: Arrived(args[0].content, 0, x.segments[j], m')
  {
    hide *;
    KernelReady(boot, args, disk, x, |m|);
    HeaderInside(args[0].content, x);
    FirstBytes(boot, args, disk);
    if Booted(disk, Page(disk), PhNum(Page(disk), 0), m, m') {
      forall j | 0 <= j < |x.segments| ensures Arrived(args[0].content, 0, x.segments[j], m') {
        SegmentAsStored(boot, args, disk, x, m, m', j);
      }
    }
  }

  lemma HeaderInside(kernel: seq<byte>, x: Executable)
    requires Stored(kernel, 0, x)
    ensures |kernel| >= 52
  {
    hide WordBytes;
    hide HalfBytes;
  }
}
