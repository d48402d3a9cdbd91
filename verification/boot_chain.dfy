/** From the linker to memory: a kernel file put on a disk by `mkbootdisk` and loaded by `bootmain`. */
module BootChain {
  import opened Memory
  import opened Elf
  import opened DiskImage
  import opened BootLoader

  /** The drive delivers the sectors of an image file. */
  ghost predicate Presents(disk: Disk, image: seq<byte>) {
    forall s: nat | SECTORSIZE * (s + 1) <= |image| :: disk(s) == image[SECTORSIZE * s..SECTORSIZE * (s + 1)]
  }

  /** The kernel file that `mkbootdisk` is given second is what the boot loader reads as the kernel. */
  lemma KernelOnDisk(boot: seq<byte>, args: seq<Arg>, disk: Disk, i: nat)
    requires Makeable(boot, args) && args != [] && args[0].File? && i < |args[0].content|
    requires Presents(disk, Image(boot, args))
    ensures KernelByte(disk, i) == args[0].content[i]
  {
    hide Padded;
    hide Image;
    hide Makeable;
    hide Holds;
    FileInImage(boot, args, 0);
    assert SectorOf(1, args, 0) == 1;
    PaddedFile(args[0].content);
    PresentedFile(disk, Image(boot, args), Padded(args[0].content), i);
  }

  lemma PaddedFile(content: seq<byte>)
    ensures |Padded(content)| % SECTORSIZE == 0 && content <= Padded(content)
  {
  }

  /** Bytes that the image holds from the second sector on are where the boot loader reads them. */
  lemma PresentedFile(disk: Disk, image: seq<byte>, padded: seq<byte>, i: nat)
    requires Presents(disk, image) && Holds(image, SECTORSIZE, padded) && i < |padded|
    requires |padded| % SECTORSIZE == 0
    ensures KernelByte(disk, i) == padded[i]
  {
    var s := 1 + i / SECTORSIZE;
    WholeSectors(|padded|, i);
    assert disk(s) == image[SECTORSIZE * s..SECTORSIZE * (s + 1)];
    assert image[SECTORSIZE..SECTORSIZE + |padded|][i] == padded[i];
  }

  lemma KernelBytesOnDisk(boot: seq<byte>, args: seq<Arg>, disk: Disk, offset: nat, n: nat)
    requires Makeable(boot, args) && args != [] && args[0].File? && offset + n <= |args[0].content|
    requires Presents(disk, Image(boot, args))
    ensures KernelBytes(disk, offset, n) == args[0].content[offset..offset + n]
  {
    hide Makeable;
    hide Image;
    hide KernelByte;
    forall i | 0 <= i < n ensures KernelBytes(disk, offset, n)[i] == args[0].content[offset..offset + n][i] {
      KernelOnDisk(boot, args, disk, offset + i);
    }
  }

  lemma WholeSectors(n: nat, i: nat)
    requires i < n && n % SECTORSIZE == 0
    ensures SECTORSIZE * (i / SECTORSIZE + 1) <= n
  {
  }

  /** A kernel file the loader can load: its headers are in its first page, and its segments are
      inside the file, have the same place in their sectors in the file and in memory, and occupy
      memory apart from each other and from the header page. */
  ghost predicate Loadable(kernel: seq<byte>, size: nat) {
    && HasProghdrs(kernel, 0) && PhOff(kernel, 0) + PROGHDR_SIZE * PhNum(kernel, 0) <= PAGESIZE
    && (forall j: nat | j < PhNum(kernel, 0) ::
          var ph := Segment(kernel, 0, j);
          && ph.offset + ph.filesz <= |kernel| && Congruent(ph)
          && LoadOf(ph).Fits(size) && Apart(LoadOf(ph), HEADER_PAGE))
    && (forall j: nat, k: nat | j < k < PhNum(kernel, 0) ::
          Apart(LoadOf(Segment(kernel, 0, j)), LoadOf(Segment(kernel, 0, k))))
  }

  /** The page on disk and the kernel file hold the same headers. */
  lemma SameHeaders(kernel: seq<byte>, page: seq<byte>)
    requires |page| == PAGESIZE && HasProghdrs(kernel, 0)
    requires PhOff(kernel, 0) + PROGHDR_SIZE * PhNum(kernel, 0) <= PAGESIZE
    requires forall i | 0 <= i < PAGESIZE && i < |kernel| :: page[i] == kernel[i]
    ensures HasProghdrs(page, 0) && PhNum(page, 0) == PhNum(kernel, 0)
    ensures Entry(page, 0) == Entry(kernel, 0) && Magic(page, 0) == Magic(kernel, 0)
    ensures forall j: nat | j < PhNum(kernel, 0) :: Segment(page, 0, j) == Segment(kernel, 0, j)
  {
    var n := if |kernel| < PAGESIZE then |kernel| else PAGESIZE;
    assert page[0..n] == kernel[0..n];
    hide Word;
    hide Half;
    hide ProghdrAt;
    SameHeader(page, 0, kernel, 0, n);
    forall j: nat | j < PhNum(kernel, 0) ensures Segment(page, 0, j) == Segment(kernel, 0, j) {
      SameProghdr(page, 0, kernel, 0, n, PhOff(kernel, 0) + PROGHDR_SIZE * j);
    }
  }

  lemma PageOfKernel(boot: seq<byte>, args: seq<Arg>, disk: Disk, i: nat)
    requires Makeable(boot, args) && args != [] && args[0].File? && i < |args[0].content| && i < PAGESIZE
    requires Presents(disk, Image(boot, args))
    ensures Page(disk)[i] == args[0].content[i]
  {
    KernelOnDisk(boot, args, disk, i);
  }

  /** Such a kernel meets what `bootmain` needs of the disk. */
  lemma LoadableIsBootable(boot: seq<byte>, args: seq<Arg>, disk: Disk, size: nat)
    requires Makeable(boot, args) && args != [] && args[0].File? && Presents(disk, Image(boot, args))
    requires Loadable(args[0].content, size)
    ensures Bootable(Page(disk), size)
    ensures var kernel := args[0].content;
            && Magic(Page(disk), 0) == Magic(kernel, 0) && Entry(Page(disk), 0) == Entry(kernel, 0)
            && PhNum(Page(disk), 0) == PhNum(kernel, 0)
            && forall j: nat | j < PhNum(kernel, 0) :: Segment(Page(disk), 0, j) == Segment(kernel, 0, j)
  {
    var kernel, page := args[0].content, Page(disk);
    forall i | 0 <= i < PAGESIZE && i < |kernel| ensures page[i] == kernel[i] {
      PageOfKernel(boot, args, disk, i);
    }
    hide Page;
    SameHeaders(kernel, page);
    hide Segment;
    hide HasProghdrs;
    hide Makeable;
    hide Image;
  }

  /** End to end: after `bootmain`, memory holds every segment of the kernel file as it was linked,
      its bytes and then zeros. */
  lemma LinkedIsLoaded(boot: seq<byte>, args: seq<Arg>, disk: Disk, m: seq<byte>, m': seq<byte>, j: nat)
    requires Makeable(boot, args) && args != [] && args[0].File? && Presents(disk, Image(boot, args))
    requires Loadable(args[0].content, |m|) && j < PhNum(args[0].content, 0)
    requires Bootable(Page(disk), |m|) && Booted(disk, Page(disk), PhNum(Page(disk), 0), m, m')
    ensures var kernel := args[0].content;
            var ph := Segment(kernel, 0, j);
            InMemory(ph, kernel[ph.offset..ph.offset + ph.filesz], m')
  {
    hide Page;
    hide Makeable;
    hide Image;
    hide Booted;
    hide InMemory;
    hide KernelBytes;
    hide Segment;
    hide HasProghdrs;
    var kernel, page := args[0].content, Page(disk);
    var ph := Segment(kernel, 0, j);
    LoadableIsBootable(boot, args, disk, |m|);
    BootedSegment(disk, page, m, m', j);
    KernelBytesOnDisk(boot, args, disk, ph.offset, ph.filesz);
  }

  lemma BootedSegment(disk: Disk, page: seq<byte>, m: seq<byte>, m': seq<byte>, j: nat)
    requires Bootable(page, |m|) && j < PhNum(page, 0) && Congruent(Segment(page, 0, j))
    requires Booted(disk, page, PhNum(page, 0), m, m')
    ensures Loaded(disk, Segment(page, 0, j), m')
  {
    var ph := Segment(page, 0, j);
    assert LoadAt(page, j) == LoadOf(ph);
    hide HasProghdrs;
    hide Loaded;
    hide Segment;
    var m1 := AfterRead(disk, LoadOf(ph), m');
    assert m1 == m';
    CongruentLoads(disk, ph, m', m1);
  }
}
