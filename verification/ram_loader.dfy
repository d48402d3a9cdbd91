/** The program loader: `copyseg` and `program_loader` of schedos-loader.c, which load an application
    from an image that is already in memory. */
module RamLoader {
  import opened Memory
  import opened Elf

  const PAGESIZE: nat := 4096
  const SCREEN_BASE: nat := 0xB8000

  /** Where an image is: an entry of `ramimages`. */
  datatype Image = Image(begin: nat, end: nat)

  // ----- copyseg -----

  /** The page-rounded destination, and what is copied there. */
  function Start(ph: Proghdr): nat {
    RoundDown(ph.va, PAGESIZE)
  }

  function Length(ph: Proghdr): nat {
    ph.va + ph.filesz - Start(ph)
  }

  predicate Fits(ph: Proghdr, src: nat, size: nat) {
    ph.va + ph.filesz <= size && ph.va + ph.memsz <= size && src + Length(ph) <= size
  }

  function InstalledByte(m: seq<byte>, ph: Proghdr, src: nat, a: nat): byte
    requires Fits(ph, src, |m|) && a < |m|
  {
    if ph.va + ph.filesz <= a < ph.va + ph.memsz then 0 else CopiedByte(m, Start(ph), src, Length(ph), a)
  }

  /** Memory after `copyseg`. */
  function Installed(m: seq<byte>, ph: Proghdr, src: nat): (r: seq<byte>)
    requires Fits(ph, src, |m|)
    ensures |r| == |m| && forall a: nat | a < |m| :: r[a] == InstalledByte(m, ph, src, a)
  {
    seq(|m|, a requires 0 <= a < |m| => InstalledByte(m, ph, src, a))
  }

  /** What comes from where: the source goes to the beginning of the page, unless it begins before that,
      zeros follow the file bytes, and the rest stays. */
  lemma InstalledParts(m: seq<byte>, ph: Proghdr, src: nat)
    requires Fits(ph, src, |m|)
    ensures var page, end, r := ph.va - ph.va % 4096, ph.va + ph.filesz, Installed(m, ph, src);
            && r[..page] == m[..page]
            && (src >= page ==> r[page..end] == m[src..src + (end - page)])
            && (forall a: nat | end <= a < |m| :: r[a] == if a < ph.va + ph.memsz then 0 else m[a])
  {
    hide CopiedByte;
    var page, end, r := ph.va - ph.va % 4096, ph.va + ph.filesz, Installed(m, ph, src);
    var copied := Copied(m, page, src, end - page);
    CopiedOutside(m, page, src, end - page);
    CopiedInside(m, page, src, end - page);
    assert r[..end] == copied[..end];
    assert r[..page] == r[..end][..page] && r[page..end] == r[..end][page..];
    assert copied[..page] == copied[..end][..page] && copied[page..end] == copied[..end][page..];
    forall a: nat | end <= a < |m| ensures r[a] == if a < ph.va + ph.memsz then 0 else m[a] {
      assert copied[a] == copied[end..][a - end] == m[end..][a - end];
    }
  }

  /** `copyseg`. Memory ends below 2^32, so no address wraps. */
  method CopySeg(mem: array<byte>, ph: Proghdr, src: nat)
    requires mem.Length < 0x1_0000_0000 && Fits(ph, src, mem.Length)
    modifies mem
    ensures mem[..] == Installed(old(mem[..]), ph, src)
  {
    hide CopiedByte;
    ghost var was := mem[..];
    var endVa := ph.va + ph.filesz;
    var memEnd := ph.va + ph.memsz;
    var va := RoundDown(ph.va, PAGESIZE);
    var _ := Memcpy(mem, va, src, endVa - va);
    ghost var copied := mem[..];
    while endVa < memEnd
      invariant ph.va + ph.filesz <= endVa && (endVa <= memEnd || endVa == ph.va + ph.filesz)
      invariant forall a: nat | a < mem.Length :: mem[a] == if ph.va + ph.filesz <= a < endVa then 0 else copied[a]
    {
      mem[endVa] := 0;
      endVa := endVa + 1;
    }
  }

  /** The addresses of a segment. */
  predicate Occupies(ph: Proghdr, a: nat) {
    ph.va <= a && (a < ph.va + ph.filesz || a < ph.va + ph.memsz)
  }

  /** The copy of a segment does not overtake its source. */
  predicate SourceSafe(ph: Proghdr, src: nat) {
    !Overtakes(Start(ph), src, Length(ph))
  }

  lemma SourceByte(ph: Proghdr, src: nat, i: nat)
    requires SourceSafe(ph, src) && i < Length(ph)
    ensures CopySource(Start(ph), src, i) == src + i
  {
    CopyRead(Start(ph), src, i);
  }

  /** What a caller can check before the call: a copy that does not overtake its source needs a
      page-aligned address; one that does repeats the bytes between source and destination, so the
      repetition must come out where the segment begins and cover all of it.  A segment without
      file bytes is always right. */
  predicate Deliverable(ph: Proghdr, src: nat) {
    var off := ph.va % PAGESIZE;
    ph.filesz == 0
    || if SourceSafe(ph, src) then off == 0 else off % (Start(ph) - src) == 0 && ph.filesz <= Start(ph) - src
  }

  /** Address `va + i` gets the byte of the source that the ascending copy takes for it. */
  lemma InstalledFrom(m: seq<byte>, ph: Proghdr, src: nat, i: nat)
    requires Fits(ph, src, |m|) && i < ph.filesz
    ensures Installed(m, ph, src)[ph.va + i] == m[CopySource(Start(ph), src, ph.va % PAGESIZE + i)]
  {
    hide CopySource;
    assert Start(ph) + ph.va % PAGESIZE == ph.va;
    hide RoundDown;
    hide Installed;
    assert Installed(m, ph, src)[ph.va + i] == InstalledByte(m, ph, src, ph.va + i);
  }

  /** It is the byte that belongs there. */
  predicate RightSource(dst: nat, src: nat, off: nat, i: nat) {
    CopySource(dst, src, off + i) == src + i
  }

  /** Which is the right one for every byte of the segment exactly if the segment is deliverable. */
  lemma RightSourceIff(ph: Proghdr, src: nat)
    ensures Deliverable(ph, src) <==>
        forall i: nat | i < ph.filesz :: RightSource(Start(ph), src, ph.va % PAGESIZE, i)
  {
    var off := ph.va % PAGESIZE;
    if ph.filesz > 0 {
      if SourceSafe(ph, src) {
        forall i: nat | i < ph.filesz ensures RightSource(Start(ph), src, off, i) <==> off == 0 {
          SourceByte(ph, src, off + i);
        }
        hide RightSource;
        assert off != 0 ==> !RightSource(Start(ph), src, off, 0);
      } else {
        OvertakenSourceIff(Start(ph), src, off, ph.filesz);
      }
    }
  }

  lemma OvertakenSourceIff(dst: nat, src: nat, off: nat, n: nat)
    requires src < dst < src + off + n && n > 0
    ensures off % (dst - src) == 0 && n <= dst - src <==>
        forall i: nat | i < n :: RightSource(dst, src, off, i)
  {
    var d := dst - src;
    if off % d == 0 && n <= d {
      forall i: nat | i < n ensures RightSource(dst, src, off, i) {
        ModOf(off + i, off / d, i, d);
      }
    } else if off % d == 0 {
      ModOf(off + d, off / d + 1, 0, d);
      assert !RightSource(dst, src, off, d);
    } else {
      assert !RightSource(dst, src, off, 0);
    }
  }

  lemma MarkedDiffers(size: nat, ph: Proghdr, src: nat, i: nat)
    requires Fits(ph, src, size) && i < ph.filesz
    requires !RightSource(Start(ph), src, ph.va % PAGESIZE, i)
    ensures var m := Marked(size, src + i);
            !InMemory(ph, m[src..src + ph.filesz], Installed(m, ph, src))
  {
    var m := Marked(size, src + i);
    InstalledFrom(m, ph, src, i);
    hide CopySource;
    var r, data := Installed(m, ph, src), m[src..src + ph.filesz];
    assert data[i] == 1 && r[ph.va..ph.va + ph.filesz][i] == r[ph.va + i] == 0;
  }

  /** `copyseg` rounds the destination down but not the source.  For any address, size and source,
      overlapping or not, it installs the right bytes, whatever they are, exactly when the segment
      is deliverable. */
  lemma InstallsIff(size: nat, ph: Proghdr, src: nat)
    requires Fits(ph, src, size)
    ensures Deliverable(ph, src) <==>
        forall m: seq<byte> | |m| == size :: InMemory(ph, m[src..src + ph.filesz], Installed(m, ph, src))
  {
    RightSourceIff(ph, src);
    hide RightSource;
    hide Deliverable;
    if Deliverable(ph, src) {
      forall m: seq<byte> | |m| == size ensures InMemory(ph, m[src..src + ph.filesz], Installed(m, ph, src)) {
        RightSourceInstalls(m, ph, src);
      }
    } else {
      var i: nat :| i < ph.filesz && !RightSource(Start(ph), src, ph.va % PAGESIZE, i);
      MarkedDiffers(size, ph, src, i);
      var m := Marked(size, src + i);
      assert |m| == size && !InMemory(ph, m[src..src + ph.filesz], Installed(m, ph, src));
    }
  }

  lemma RightSourceInstalls(m: seq<byte>, ph: Proghdr, src: nat)
    requires Fits(ph, src, |m|)
    requires forall i: nat | i < ph.filesz :: RightSource(Start(ph), src, ph.va % PAGESIZE, i)
    ensures InMemory(ph, m[src..src + ph.filesz], Installed(m, ph, src))
  {
    var r, data := Installed(m, ph, src), m[src..src + ph.filesz];
    assert forall a: nat | ph.va + ph.filesz <= a < ph.va + ph.memsz :: r[a] == 0;
    hide CopySource;
    hide Installed;
    forall i | 0 <= i < ph.filesz ensures r[ph.va..ph.va + ph.filesz][i] == data[i] {
      InstalledFrom(m, ph, src, i);
      assert RightSource(Start(ph), src, ph.va % PAGESIZE, i);
    }
    hide InstalledByte;
    hide Start;
    assert r[ph.va..ph.va + ph.filesz] == data;
  }

  /** A page-aligned segment that keeps off its source ends up as its bytes and zeros, and nothing else
      changes. */
  lemma AlignedInstalls(m: seq<byte>, ph: Proghdr, src: nat)
    requires Fits(ph, src, |m|) && SourceSafe(ph, src) && ph.va % PAGESIZE == 0
    ensures InMemory(ph, m[src..src + ph.filesz], Installed(m, ph, src))
    ensures forall a: nat | a < |m| && !Occupies(ph, a) :: Installed(m, ph, src)[a] == m[a]
  {
    RightSourceIff(ph, src);
    RightSourceInstalls(m, ph, src);
    hide CopySource;
    hide InMemory;
  }

  /** A page-aligned segment of two bytes whose source begins one byte before it is corrupted. */
  lemma OvertakenSourceIsLost(m: seq<byte>)
    requires |m| == 0x20_0002 && m[0x1F_FFFF] != m[0x20_0000]
    ensures var ph := Proghdr(ELF_PROG_LOAD, 0, 0x20_0000, 2, 2);
            && Fits(ph, 0x1F_FFFF, |m|) && ph.va % PAGESIZE == 0 && !Deliverable(ph, 0x1F_FFFF)
            && !InMemory(ph, m[0x1F_FFFF..0x20_0001], Installed(m, ph, 0x1F_FFFF))
  {
    var ph := Proghdr(ELF_PROG_LOAD, 0, 0x20_0000, 2, 2);
    assert CopySource(0x20_0000, 0x1F_FFFF, 1) == 0x1F_FFFF;
    InstalledFrom(m, ph, 0x1F_FFFF, 1);
    hide CopySource;
    var r := Installed(m, ph, 0x1F_FFFF);
    assert r[ph.va..ph.va + ph.filesz][1] == r[0x20_0001] == m[0x1F_FFFF];
    assert m[0x1F_FFFF..0x20_0001][1] == m[0x20_0000];
  }

  // ----- program_loader -----

  /** Program header `j` asks to be loaded. */
  predicate Loads(m: seq<byte>, image: Image, j: nat)
    requires HasProghdrs(m, image.begin)
  {
    j < PhNum(m, image.begin) && Segment(m, image.begin, j).kind == ELF_PROG_LOAD
  }

  ghost predicate Apart(ph: Proghdr, ph': Proghdr) {
    forall a: nat | Occupies(ph, a) :: !Occupies(ph', a)
  }

  ghost predicate Spares(ph: Proghdr, image: Image) {
    forall a: nat | Occupies(ph, a) :: !(image.begin <= a < image.end)
  }

  /** A program that can be loaded: headers and segment bytes are inside the image, and each segment
      to load is page-aligned, fits, and keeps off the image and the other segments. */
  ghost predicate Loadable(m: seq<byte>, image: Image) {
    && image.end <= |m| && HasProghdrs(m, image.begin) && image.begin + HEADER_SIZE <= image.end
    && image.begin + PhOff(m, image.begin) + PROGHDR_SIZE * PhNum(m, image.begin) <= image.end
    && (forall j: nat | Loads(m, image, j) :: CanInstall(Segment(m, image.begin, j), image, |m|))
    && (forall j: nat, k: nat | j < k && Loads(m, image, j) && Loads(m, image, k) ::
          Apart(Segment(m, image.begin, j), Segment(m, image.begin, k)))
  }

  ghost predicate CanInstall(ph: Proghdr, image: Image, size: nat) {
    && image.begin + ph.offset + ph.filesz <= image.end && ph.va % PAGESIZE == 0
    && ph.va + ph.filesz <= size && ph.va + ph.memsz <= size && Spares(ph, image)
  }

  /** The file bytes of a segment. */
  function Bytes(m: seq<byte>, image: Image, ph: Proghdr): seq<byte>
    requires image.begin + ph.offset + ph.filesz <= |m|
  {
    m[image.begin + ph.offset..image.begin + ph.offset + ph.filesz]
  }

  /** Memory `m'` is `m` with the first `n` program headers of an image loaded. */
  ghost predicate LoadedUpTo(m: seq<byte>, image: Image, n: nat, m': seq<byte>)
    requires Loadable(m, image)
  {
    && |m'| == |m|
    && (forall j: nat | j < n && Loads(m, image, j) ::
          InMemory(Segment(m, image.begin, j), Bytes(m, image, Segment(m, image.begin, j)), m'))
    && (forall a: nat | a < |m| && Untouched(m, image, n, a) :: m'[a] == m[a])
  }

  ghost predicate Untouched(m: seq<byte>, image: Image, n: nat, a: nat)
    requires HasProghdrs(m, image.begin)
  {
    forall j: nat | j < n && Loads(m, image, j) :: !Occupies(Segment(m, image.begin, j), a)
  }

  /** The whole program is loaded, and nothing else has changed. */
  ghost predicate ProgramLoaded(m: seq<byte>, image: Image, m': seq<byte>)
    requires Loadable(m, image)
  {
    LoadedUpTo(m, image, PhNum(m, image.begin), m')
  }

  /** The source of a segment is still intact when its turn comes. */
  lemma InstallOne(m: seq<byte>, image: Image, ph: Proghdr, m1: seq<byte>)
    requires CanInstall(ph, image, |m|) && image.end <= |m| && |m1| == |m|
    requires forall a: nat | image.begin <= a < image.end :: m1[a] == m[a]
    ensures var src := image.begin + ph.offset;
            && Fits(ph, src, |m|) && InMemory(ph, Bytes(m, image, ph), Installed(m1, ph, src))
            && forall a: nat | a < |m| && !Occupies(ph, a) :: Installed(m1, ph, src)[a] == m1[a]
  {
    var src := image.begin + ph.offset;
    if ph.filesz > 0 {
      assert Occupies(ph, ph.va);
    }
    AlignedInstalls(m1, ph, src);
    assert m1[src..src + ph.filesz] == m[src..src + ph.filesz];
  }

  lemma StaysInMemory(ph: Proghdr, data: seq<byte>, m1: seq<byte>, ph': Proghdr, m2: seq<byte>)
    requires InMemory(ph, data, m1) && Apart(ph, ph') && |m2| == |m1|
    requires forall a: nat | a < |m1| && !Occupies(ph', a) :: m2[a] == m1[a]
    ensures InMemory(ph, data, m2)
  {
  }

  /** Loading segments leaves the image as it is. */
  lemma ImageIntact(m: seq<byte>, image: Image, n: nat, m1: seq<byte>)
    requires Loadable(m, image) && LoadedUpTo(m, image, n, m1)
    ensures forall a: nat | image.begin <= a < image.end :: m1[a] == m[a]
  {
  }

  lemma LoadableSegment(m: seq<byte>, image: Image, n: nat)
    requires Loadable(m, image) && Loads(m, image, n)
    ensures CanInstall(Segment(m, image.begin, n), image, |m|) && image.end <= |m|
    ensures image.begin + Segment(m, image.begin, n).offset + Segment(m, image.begin, n).filesz <= |m|
  {
  }

  lemma LoadedSize(m: seq<byte>, image: Image, n: nat, m1: seq<byte>)
    requires Loadable(m, image) && LoadedUpTo(m, image, n, m1)
    ensures |m1| == |m|
  {
  }

  /** Loading one more segment. */
  lemma LoadNext(m: seq<byte>, image: Image, n: nat, m1: seq<byte>)
    requires Loadable(m, image) && Loads(m, image, n) && LoadedUpTo(m, image, n, m1)
    ensures var ph := Segment(m, image.begin, n);
            var src := image.begin + ph.offset;
            Fits(ph, src, |m|) && LoadedUpTo(m, image, n + 1, Installed(m1, ph, src))
  {
    hide LoadedUpTo;
    hide CanInstall;
    hide InMemory;
    hide Installed;
    hide Occupies;
    hide Untouched;
    hide HasProghdrs;
    hide Segment;
    hide Bytes;
    var ph := Segment(m, image.begin, n);
    LoadableSegment(m, image, n);
    ImageIntact(m, image, n, m1);
    LoadedSize(m, image, n, m1);
    InstallOne(m, image, ph, m1);
    OneMore(m, image, n, m1, Installed(m1, ph, image.begin + ph.offset));
  }

  lemma OneMore(m: seq<byte>, image: Image, n: nat, m1: seq<byte>, m2: seq<byte>)
    requires Loadable(m, image) && Loads(m, image, n) && LoadedUpTo(m, image, n, m1) && |m2| == |m1|
    requires var ph := Segment(m, image.begin, n);
             && InMemory(ph, Bytes(m, image, ph), m2)
             && forall a: nat | a < |m| && !Occupies(ph, a) :: m2[a] == m1[a]
    ensures LoadedUpTo(m, image, n + 1, m2)
  {
    hide HasProghdrs;
    hide Segment;
    hide InMemory;
    hide Occupies;
    hide Bytes;
    var ph := Segment(m, image.begin, n);
    forall j: nat | j < n && Loads(m, image, j)
      ensures InMemory(Segment(m, image.begin, j), Bytes(m, image, Segment(m, image.begin, j)), m2)
    {
      StaysInMemory(Segment(m, image.begin, j), Bytes(m, image, Segment(m, image.begin, j)), m1, ph, m2);
    }
    forall a: nat | a < |m| && Untouched(m, image, n + 1, a) ensures m2[a] == m[a] {
      assert Untouched(m, image, n, a);
    }
  }

  /** Loading is unaffected by a header that does not ask for it. */
  lemma SkipNext(m: seq<byte>, image: Image, n: nat, m1: seq<byte>)
    requires Loadable(m, image) && !Loads(m, image, n) && LoadedUpTo(m, image, n, m1)
    ensures LoadedUpTo(m, image, n + 1, m1)
  {
    hide HasProghdrs;
    hide Segment;
    hide InMemory;
    hide Occupies;
    hide Bytes;
    forall a: nat | a < |m| && Untouched(m, image, n + 1, a) ensures m1[a] == m[a] {
      assert Untouched(m, image, n, a);
    }
  }

  lemma HeadersIntact(m: seq<byte>, image: Image, n: nat, m1: seq<byte>)
    requires Loadable(m, image) && LoadedUpTo(m, image, n, m1)
    ensures Same(m1, image.begin, m, image.begin, image.end - image.begin)
    ensures Entry(m1, image.begin) == Entry(m, image.begin)
    ensures n < PhNum(m, image.begin) ==>
        ProghdrAt(m1, image.begin + PhOff(m, image.begin) + PROGHDR_SIZE * n) == Segment(m, image.begin, n)
  {
    hide InMemory;
    hide LoadedUpTo;
    hide Word;
    hide Half;
    hide ProghdrAt;
    ImageIntact(m, image, n, m1);
    LoadedSize(m, image, n, m1);
    var len := image.end - image.begin;
    assert m1[image.begin..image.begin + len] == m[image.begin..image.begin + len];
    SameHeader(m1, image.begin, m, image.begin, len);
    if n < PhNum(m, image.begin) {
      SameProghdr(m1, image.begin, m, image.begin, len, PhOff(m, image.begin) + PROGHDR_SIZE * n);
    }
  }

  lemma NothingLoaded(m: seq<byte>, image: Image)
    requires Loadable(m, image)
    ensures LoadedUpTo(m, image, 0, m)
  {
  }

  /** The loader's result: the program's entry point, or the endless loop of `loader_panic`. */
  datatype Outcome = Started(entry: nat) | Panicked

  /** The number names an image, and the image begins as an ELF file. */
  predicate Recognised(m: seq<byte>, images: seq<Image>, id: int) {
    0 <= id < |images| && HasHeader(m, images[id].begin) && Magic(m, images[id].begin) == ELF_MAGIC
  }

  /** Memory after `loader_panic`: a grey exclamation mark in the corner of the screen. */
  function Panic(m: seq<byte>): seq<byte>
    requires SCREEN_BASE + 2 <= |m|
  {
    m[SCREEN_BASE := '!' as int][SCREEN_BASE + 1 := 0x07]
  }

  /** `loader_panic`. */
  method LoaderPanic(mem: array<byte>)
    requires SCREEN_BASE + 2 <= mem.Length
    modifies mem
    ensures mem[..] == Panic(old(mem[..]))
    ensures mem[0xB8000] == 0x21 && mem[0xB8001] == 0x07
    ensures mem[..0xB8000] == old(mem[..0xB8000]) && mem[0xB8002..] == old(mem[0xB8002..])
  {
    mem[SCREEN_BASE] := '!' as int;
    mem[SCREEN_BASE + 1] := 0x07;
  }

  /** `program_loader`. */
  method ProgramLoader(mem: array<byte>, images: seq<Image>, id: int) returns (o: Outcome)
    requires SCREEN_BASE + 2 <= mem.Length < 0x1_0000_0000
    requires 0 <= id < |images| ==> HasHeader(mem[..], images[id].begin)
    requires Recognised(mem[..], images, id) ==> Loadable(mem[..], images[id])
    modifies mem
    ensures !Recognised(old(mem[..]), images, id) ==> o == Panicked && mem[..] == Panic(old(mem[..]))
    ensures Recognised(old(mem[..]), images, id) ==>
        o == Started(Entry(old(mem[..]), images[id].begin)) && ProgramLoaded(old(mem[..]), images[id], mem[..])
    ensures o.Started? <==> 0 <= id < |images| && Branded(old(mem[..]), images[id].begin)
  {
    hide Loadable;
    hide LoadedUpTo;
    hide Installed;
    hide Word;
    hide Half;
    hide ProghdrAt;
    hide Panic;
    hide Branded;
    if id < 0 || id >= |images| {
      LoaderPanic(mem);
      return Panicked;
    }
    var begin := images[id].begin;
    BrandedIff(mem[..], begin);
    if Magic(mem[..], begin) != ELF_MAGIC {
      LoaderPanic(mem);
      return Panicked;
    }
    ghost var was, image := mem[..], images[id];
    HeadersInside(was, image);
    NothingLoaded(was, image);
    var ph := begin + PhOff(mem[..], begin);
    var eph := ph + PROGHDR_SIZE * PhNum(mem[..], begin);
    ghost var n := 0;
    while ph < eph
      invariant 0 <= n <= PhNum(was, begin) && ph == begin + PhOff(was, begin) + PROGHDR_SIZE * n
      invariant mem.Length == |was| && LoadedUpTo(was, image, n, mem[..])
    {
      HeadersIntact(was, image, n, mem[..]);
      var p := ProghdrAt(mem[..], ph);
      assert p == Segment(was, begin, n);
      if p.kind == ELF_PROG_LOAD {
        LoadNext(was, image, n, mem[..]);
        CopySeg(mem, p, begin + p.offset);
      } else {
        SkipNext(was, image, n, mem[..]);
      }
      ph := ph + PROGHDR_SIZE;
      n := n + 1;
    }
    HeadersIntact(was, image, n, mem[..]);
    o := Started(Entry(mem[..], begin));
  }

  lemma HeadersInside(m: seq<byte>, image: Image)
    requires Loadable(m, image)
    ensures image.begin + PhOff(m, image.begin) + PROGHDR_SIZE * PhNum(m, image.begin) <= |m|
    ensures HasProghdrs(m, image.begin)
  {
  }
}
