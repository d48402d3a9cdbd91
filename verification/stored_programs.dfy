/** Executables byte by byte: what the two loaders make of the structures that a linker stores. */
module StoredPrograms {
  import opened Memory
  import opened Elf
  import opened ElfLayout
  import opened RamLoader
  import opened ProgramImages

  /** An executable: its header and its program headers. */
  datatype Executable = Executable(header: ElfHeader, segments: seq<ProgramHeader>)

  /** It is stored at `at`, the program headers in a table at the offset that the header gives. */
  ghost predicate Stored(m: seq<byte>, at: nat, x: Executable) {
    && |x.header.ident| == 12 && |x.segments| == x.header.phnum
    && At(m, at, HeaderBytes(x.header))
    && forall j: nat | j < |x.segments| :: At(m, at + x.header.phoff + 32 * j, ProgramHeaderBytes(x.segments[j]))
  }

  // ----- Single bytes -----

  /** Bytes `i` to `i + 3` of `s` are the word `w`, least significant first. */
  predicate WordIn(s: seq<byte>, i: nat, w: word) {
    && i + 4 <= |s| && s[i] == w % 256 && s[i + 1] == w / 256 % 256
    && s[i + 2] == w / 65536 % 256 && s[i + 3] == w / 16777216
  }

  lemma WordParts(w: word)
    ensures WordBytes(w) == [w % 256, w / 256 % 256, w / 65536 % 256, w / 16777216]
  {
    assert w % 65536 % 256 == w % 256 && w % 65536 / 256 == w / 256 % 256;
    assert w / 65536 / 256 == w / 16777216;
  }

  lemma WordBytesAt(a: seq<byte>, w: word, b: seq<byte>)
    ensures WordIn(a + WordBytes(w) + b, |a|, w)
  {
    hide WordBytes;
    WordParts(w);
    var s, bytes := a + WordBytes(w) + b, WordBytes(w);
    assert s[|a|] == bytes[0] && s[|a| + 1] == bytes[1] && s[|a| + 2] == bytes[2] && s[|a| + 3] == bytes[3];
  }

  function BeforeEntry(h: ElfHeader): seq<byte> {
    WordBytes(h.magic) + h.ident + HalfBytes(h.kind) + HalfBytes(h.machine) + WordBytes(h.version)
  }

  function AfterOffset(h: ElfHeader): seq<byte> {
    WordBytes(h.shoff) + WordBytes(h.flags) + HalfBytes(h.ehsize) + HalfBytes(h.phentsize)
  }

  function AfterCount(h: ElfHeader): seq<byte> {
    HalfBytes(h.shentsize) + HalfBytes(h.shnum) + HalfBytes(h.shstrndx)
  }

  /** The header around the fields that the loaders read. */
  lemma HeaderParts(h: ElfHeader)
    requires |h.ident| == 12
    ensures |BeforeEntry(h)| == 24 && |AfterOffset(h)| == 12 && |AfterCount(h)| == 6
    ensures HeaderBytes(h) == BeforeEntry(h) + WordBytes(h.entry) + WordBytes(h.phoff) + AfterOffset(h)
                              + HalfBytes(h.phnum) + AfterCount(h)
  {
    hide WordBytes;
    hide HalfBytes;
    var a, b, d := BeforeEntry(h), AfterOffset(h), AfterCount(h);
    assert HeaderBytes(h) == a + (WordBytes(h.entry) + WordBytes(h.phoff)) + b + HalfBytes(h.phnum) + d;
  }

  lemma EntryAndOffset(h: ElfHeader)
    requires |h.ident| == 12
    ensures WordIn(HeaderBytes(h), 24, h.entry) && WordIn(HeaderBytes(h), 28, h.phoff)
  {
    hide *;
    HeaderParts(h);
    var a, e, o, b := BeforeEntry(h), WordBytes(h.entry), WordBytes(h.phoff), AfterOffset(h);
    var d := HalfBytes(h.phnum) + AfterCount(h);
    assert HeaderBytes(h) == a + e + (o + b + d) == (a + e) + o + (b + d);
    WordBytesAt(a, h.entry, o + b + d);
    WordBytesAt(a + e, h.phoff, b + d);
  }

  lemma MagicAndCount(h: ElfHeader)
    requires |h.ident| == 12
    ensures var s := HeaderBytes(h);
            |s| == 52 && WordIn(s, 0, h.magic) && s[44] == h.phnum % 256 && s[45] == h.phnum / 256
  {
    hide WordIn;
    hide WordBytes;
    hide HeaderBytes;
    HeaderParts(h);
    var m := WordBytes(h.magic);
    var a := h.ident + HalfBytes(h.kind) + HalfBytes(h.machine) + WordBytes(h.version);
    assert BeforeEntry(h) == m + a;
    hide BeforeEntry;
    hide AfterOffset;
    hide AfterCount;
    var x := WordBytes(h.entry) + WordBytes(h.phoff) + AfterOffset(h);
    var y := HalfBytes(h.phnum) + AfterCount(h);
    assert HeaderBytes(h) == [] + m + (a + x + y) == (m + a + x) + y;
    WordBytesAt([], h.magic, a + x + y);
    assert HeaderBytes(h)[44] == y[0] && HeaderBytes(h)[45] == y[1];
  }

  /** The places of the fields that the loaders read, in `struct Elf`. */
  lemma HeaderLayout(h: ElfHeader)
    requires |h.ident| == 12
    ensures var s := HeaderBytes(h);
            && |s| == 52 && WordIn(s, 0, h.magic) && WordIn(s, 24, h.entry) && WordIn(s, 28, h.phoff)
            && s[44] == h.phnum % 256 && s[45] == h.phnum / 256
  {
    hide *;
    MagicAndCount(h);
    EntryAndOffset(h);
  }

  /** The same for `struct Proghdr`. */
  lemma ProgramHeaderLayout(p: ProgramHeader)
    ensures var s := ProgramHeaderBytes(p);
            && |s| == 32 && WordIn(s, 0, p.kind) && WordIn(s, 4, p.offset) && WordIn(s, 8, p.va)
            && WordIn(s, 16, p.filesz) && WordIn(s, 20, p.memsz)
  {
    hide WordBytes;
    var a, b, c, d := WordBytes(p.kind), WordBytes(p.offset), WordBytes(p.va), WordBytes(p.pa);
    var e, f, g, h := WordBytes(p.filesz), WordBytes(p.memsz), WordBytes(p.flags), WordBytes(p.align);
    var s := ProgramHeaderBytes(p);
    assert s == a + b + c + d + e + f + g + h;
    hide ProgramHeaderBytes;
    assert s == [] + a + (b + c + d + e + f + g + h);
    WordBytesAt([], p.kind, b + c + d + e + f + g + h);
    assert s == a + b + (c + d + e + f + g + h);
    WordBytesAt(a, p.offset, c + d + e + f + g + h);
    assert s == (a + b) + c + (d + e + f + g + h);
    WordBytesAt(a + b, p.va, d + e + f + g + h);
    assert s == (a + b + c + d) + e + (f + g + h);
    WordBytesAt(a + b + c + d, p.filesz, f + g + h);
    assert s == (a + b + c + d + e) + f + (g + h);
    WordBytesAt(a + b + c + d + e, p.memsz, g + h);
  }

  // ----- The program loader -----

  /** The addresses of a segment. */
  predicate Lies(p: ProgramHeader, a: nat) {
    p.va <= a && (a < p.va + p.filesz || a < p.va + p.memsz)
  }

  /** A segment to load: its bytes are in the image, and its addresses begin a page and are in memory,
      outside the image. */
  ghost predicate Placed(p: ProgramHeader, image: Image, size: nat) {
    && image.begin + p.offset + p.filesz <= image.end && p.va % 4096 == 0
    && p.va + p.filesz <= size && p.va + p.memsz <= size && Avoids(p, image)
  }

  ghost predicate Avoids(p: ProgramHeader, image: Image) {
    forall a: nat | Lies(p, a) :: a < image.begin || image.end <= a
  }

  /** No address is in two segments. */
  ghost predicate Disjoint(p: ProgramHeader, p': ProgramHeader) {
    forall a: nat | Lies(p, a) :: !Lies(p', a)
  }

  /** What the linker guarantees for every segment to load, which is one of type 1. */
  ghost predicate Linked(x: Executable, image: Image, size: nat) {
    && image.begin + 52 <= image.end <= size
    && image.begin + x.header.phoff + 32 * |x.segments| <= image.end
    && (forall j | 0 <= j < |x.segments| && x.segments[j].kind == 1 :: Placed(x.segments[j], image, size))
    && (forall j, k | 0 <= j < k < |x.segments| && x.segments[j].kind == 1 && x.segments[k].kind == 1 ::
          Disjoint(x.segments[j], x.segments[k]))
  }

  /** The file bytes of a segment are where it asks for them, followed by zeros. */
  ghost predicate Arrived(m: seq<byte>, begin: nat, p: ProgramHeader, m': seq<byte>) {
    && begin + p.offset + p.filesz <= |m| && p.va + p.filesz <= |m'| && p.va + p.memsz <= |m'|
    && m'[p.va..p.va + p.filesz] == m[begin + p.offset..begin + p.offset + p.filesz]
    && forall a: nat | p.va + p.filesz <= a < p.va + p.memsz :: m'[a] == 0
  }

  /** What the loader reads of program header `j`. */
  function Read(x: Executable, j: nat): Proghdr
    requires j < |x.segments|
  {
    var p := x.segments[j];
    Proghdr(p.kind, p.offset, p.va, p.filesz, p.memsz)
  }

  /** The loader finds the headers as they were stored. */
  lemma HeadersRead(m: seq<byte>, at: nat, x: Executable)
    requires Stored(m, at, x) && at + x.header.phoff + 32 * |x.segments| <= |m|
    ensures HasProghdrs(m, at) && Entry(m, at) == x.header.entry && PhNum(m, at) == |x.segments|
    ensures forall j: nat | j < |x.segments| :: Segment(m, at, j) == Read(x, j)
  {
    hide HeaderBytes;
    hide ProgramHeaderBytes;
    hide At;
    hide Word;
    hide Half;
    hide ProghdrAt;
    HeaderReadsBack(m, at, x.header);
    forall j: nat | j < |x.segments| ensures Segment(m, at, j) == Read(x, j) {
      ProgramHeaderReadsBack(m, at + x.header.phoff + 32 * j, x.segments[j]);
    }
  }

  lemma PlacedFits(x: Executable, j: nat, image: Image, size: nat)
    requires j < |x.segments| && Placed(x.segments[j], image, size)
    ensures CanInstall(Read(x, j), image, size)
  {
    forall a: nat | Occupies(Read(x, j), a) ensures !(image.begin <= a < image.end) {
      assert Lies(x.segments[j], a);
    }
  }

  lemma DisjointApart(x: Executable, j: nat, k: nat)
    requires j < |x.segments| && k < |x.segments| && Disjoint(x.segments[j], x.segments[k])
    ensures RamLoader.Apart(Read(x, j), Read(x, k))
  {
    forall a: nat | Occupies(Read(x, j), a) ensures !Occupies(Read(x, k), a) {
      assert Lies(x.segments[j], a) && !Lies(x.segments[k], a);
    }
  }

  lemma LoadsType1(m: seq<byte>, image: Image, x: Executable, j: nat)
    requires HasProghdrs(m, image.begin) && PhNum(m, image.begin) == |x.segments|
    requires j < |x.segments| ==> Segment(m, image.begin, j) == Read(x, j)
    ensures Loads(m, image, j) <==> j < |x.segments| && x.segments[j].kind == 1
  {
    hide HasProghdrs;
    hide PhNum;
    hide Segment;
  }

  /** Such an executable can be loaded, and its segments of type 1 are those that are. */
  lemma LinkedIsLoadable(m: seq<byte>, image: Image, x: Executable)
    requires Stored(m, image.begin, x) && Linked(x, image, |m|)
    ensures Loadable(m, image)
    ensures forall j: nat :: Loads(m, image, j) <==> j < |x.segments| && x.segments[j].kind == 1
  {
    HeadersRead(m, image.begin, x);
    OffsetRead(m, image.begin, x);
    hide Stored;
    hide Segment;
    hide Loads;
    hide HasProghdrs;
    hide PhOff;
    hide PhNum;
    hide Entry;
    hide Read;
    hide Placed;
    hide Disjoint;
    hide CanInstall;
    hide RamLoader.Apart;
    forall j: nat ensures Loads(m, image, j) <==> j < |x.segments| && x.segments[j].kind == 1 {
      LoadsType1(m, image, x, j);
    }
    forall j: nat | Loads(m, image, j) ensures CanInstall(Segment(m, image.begin, j), image, |m|) {
      PlacedFits(x, j, image, |m|);
    }
    forall j: nat, k: nat | j < k && Loads(m, image, j) && Loads(m, image, k)
      ensures RamLoader.Apart(Segment(m, image.begin, j), Segment(m, image.begin, k))
    {
      DisjointApart(x, j, k);
    }
  }

  lemma OffsetRead(m: seq<byte>, at: nat, x: Executable)
    requires Stored(m, at, x) && HasHeader(m, at)
    ensures PhOff(m, at) == x.header.phoff
  {
    hide HeaderBytes;
    hide At;
    hide Word;
    hide Half;
    HeaderReadsBack(m, at, x.header);
  }

  /** After the loader, every segment of type 1 is in memory as it was stored, and an address outside
      all of these holds what it held. */
  lemma LoadedAsStored(m: seq<byte>, image: Image, x: Executable, m': seq<byte>)
    requires Stored(m, image.begin, x) && Linked(x, image, |m|)
    requires Loadable(m, image) && ProgramLoaded(m, image, m')
    ensures |m'| == |m|
    ensures forall j | 0 <= j < |x.segments| && x.segments[j].kind == 1 :: Arrived(m, image.begin, x.segments[j], m')
    ensures forall a: nat | a < |m| && (forall j | 0 <= j < |x.segments| && x.segments[j].kind == 1 ::
                                          !Lies(x.segments[j], a)) :: m'[a] == m[a]
  {
    LinkedIsLoadable(m, image, x);
    HeadersRead(m, image.begin, x);
    hide Stored;
    hide Linked;
    hide Loadable;
    hide Segment;
    hide HasProghdrs;
    hide PhNum;
    hide Loads;
    hide InMemory;
    hide Arrived;
    forall j | 0 <= j < |x.segments| && x.segments[j].kind == 1
      ensures Arrived(m, image.begin, x.segments[j], m')
    {
      assert Loads(m, image, j);
      InMemoryArrived(m, image, x, j, m');
    }
    forall a: nat | a < |m| && (forall j | 0 <= j < |x.segments| && x.segments[j].kind == 1 ::
                                  !Lies(x.segments[j], a))
      ensures m'[a] == m[a]
    {
      assert Untouched(m, image, |x.segments|, a);
    }
  }

  lemma InMemoryArrived(m: seq<byte>, image: Image, x: Executable, j: nat, m': seq<byte>)
    requires j < |x.segments| && image.begin + Read(x, j).offset + Read(x, j).filesz <= |m|
    requires InMemory(Read(x, j), Bytes(m, image, Read(x, j)), m')
    ensures Arrived(m, image.begin, x.segments[j], m')
  {
  }

  // ----- All programs -----

  /** The executables of all images, no segment of one on an image or a segment of another. */
  ghost predicate AllLinked(m: seq<byte>, images: seq<Image>, xs: seq<Executable>) {
    && |xs| == |images|
    && (forall i | 0 <= i < |xs| ::
          Stored(m, images[i].begin, xs[i]) && Linked(xs[i], images[i], |m|) && Branded(m, images[i].begin))
    && (forall i, j, i' | 0 <= i < |xs| && 0 <= j < |xs[i].segments| && xs[i].segments[j].kind == 1 && 0 <= i' < |xs| ::
          Avoids(xs[i].segments[j], images[i']))
    && (forall i, j, i', j' | 0 <= i < i' < |xs| && 0 <= j < |xs[i].segments| && 0 <= j' < |xs[i'].segments|
                              && xs[i].segments[j].kind == 1 && xs[i'].segments[j'].kind == 1 ::
          Disjoint(xs[i].segments[j], xs[i'].segments[j']))
  }

  lemma OneOf(m: seq<byte>, images: seq<Image>, xs: seq<Executable>, i: nat)
    requires AllLinked(m, images, xs) && i < |xs|
    ensures Stored(m, images[i].begin, xs[i]) && Linked(xs[i], images[i], |m|)
    ensures images[i].begin + 52 <= |m| && Branded(m, images[i].begin)
  {
    hide Stored;
    hide Disjoint;
    hide Avoids;
  }

  lemma WantedType1(m: seq<byte>, images: seq<Image>, xs: seq<Executable>, i: nat, j: nat)
    requires AllLinked(m, images, xs)
    ensures Wanted(m, images, i, j) <==> i < |xs| && j < |xs[i].segments| && xs[i].segments[j].kind == 1
    ensures Wanted(m, images, i, j) ==> Seg(m, images, i, j) == Read(xs[i], j)
  {
    hide Stored;
    hide Linked;
    hide Segment;
    hide HasProghdrs;
    hide Loads;
    hide Loadable;
    hide Read;
    if i < |xs| {
      OneOf(m, images, xs, i);
      hide AllLinked;
      LinkedIsLoadable(m, images[i], xs[i]);
      LinkedInside(m, images[i], xs[i]);
      HeadersRead(m, images[i].begin, xs[i]);
    }
  }

  lemma LinkedInside(m: seq<byte>, image: Image, x: Executable)
    requires Linked(x, image, |m|)
    ensures image.begin + x.header.phoff + 32 * |x.segments| <= |m|
  {
  }

  /** So all of them can be loaded. */
  lemma LinkedAreLoadable(m: seq<byte>, images: seq<Image>, xs: seq<Executable>)
    requires AllLinked(m, images, xs)
    ensures AllLoadable(m, images)
  {
    hide Wanted;
    hide Seg;
    hide Spares;
    hide RamLoader.Apart;
    hide Loadable;
    hide AllLinked;
    hide Magic;
    forall i: nat | i < |images|
      ensures Loadable(m, images[i]) && HasHeader(m, images[i].begin) && Magic(m, images[i].begin) == ELF_MAGIC
    {
      AsMany(m, images, xs);
      OneOf(m, images, xs, i);
      LinkedIsLoadable(m, images[i], xs[i]);
      BrandedIff(m, images[i].begin);
    }
    forall i: nat, j: nat, i': nat | Wanted(m, images, i, j) && i' < |images|
      ensures Spares(Seg(m, images, i, j), images[i'])
    {
      WantedType1(m, images, xs, i, j);
      AllAvoid(m, images, xs, i, j, i');
    }
    forall i: nat, j: nat, i': nat, j': nat | i < i' && Wanted(m, images, i, j) && Wanted(m, images, i', j')
      ensures RamLoader.Apart(Seg(m, images, i, j), Seg(m, images, i', j'))
    {
      WantedType1(m, images, xs, i, j);
      WantedType1(m, images, xs, i', j');
      AllApart(m, images, xs, i, j, i', j');
    }
  }

  lemma AsMany(m: seq<byte>, images: seq<Image>, xs: seq<Executable>)
    requires AllLinked(m, images, xs)
    ensures |xs| == |images|
  {
  }

  lemma AllAvoid(m: seq<byte>, images: seq<Image>, xs: seq<Executable>, i: nat, j: nat, i': nat)
    requires AllLinked(m, images, xs) && i < |xs| && j < |xs[i].segments| && xs[i].segments[j].kind == 1
    requires i' < |images|
    ensures Spares(Read(xs[i], j), images[i'])
  {
    hide Stored;
    hide Linked;
    hide Disjoint;
    var p := xs[i].segments[j];
    assert Avoids(p, images[i']);
    forall a: nat | Occupies(Read(xs[i], j), a) ensures !(images[i'].begin <= a < images[i'].end) {
      assert Lies(p, a);
    }
  }

  lemma AllApart(m: seq<byte>, images: seq<Image>, xs: seq<Executable>, i: nat, j: nat, i': nat, j': nat)
    requires AllLinked(m, images, xs) && i < i' < |xs| && j < |xs[i].segments| && j' < |xs[i'].segments|
    requires xs[i].segments[j].kind == 1 && xs[i'].segments[j'].kind == 1
    ensures RamLoader.Apart(Read(xs[i], j), Read(xs[i'], j'))
  {
    hide Stored;
    hide Linked;
    hide Avoids;
    var p, p' := xs[i].segments[j], xs[i'].segments[j'];
    assert Disjoint(p, p');
    hide AllLinked;
    forall a: nat | Occupies(Read(xs[i], j), a) ensures !Occupies(Read(xs[i'], j'), a) {
      assert Lies(p, a) && !Lies(p', a);
    }
  }

  /** After `n` programs have been loaded, every segment of type 1 of each of them is in memory as it was
      stored, and an address outside all of these holds what it held. */
  lemma AllLoadedAsStored(m: seq<byte>, images: seq<Image>, xs: seq<Executable>, n: nat, m': seq<byte>)
    requires AllLinked(m, images, xs) && n <= |xs|
    requires AllLoadable(m, images) && AllLoaded(m, images, n, m')
    ensures |m'| == |m|
    ensures forall i, j | 0 <= i < n && 0 <= j < |xs[i].segments| && xs[i].segments[j].kind == 1 ::
        Arrived(m, images[i].begin, xs[i].segments[j], m')
    ensures forall a: nat | a < |m| && (forall i, j | 0 <= i < n && 0 <= j < |xs[i].segments|
                                          && xs[i].segments[j].kind == 1 :: !Lies(xs[i].segments[j], a)) ::
        m'[a] == m[a]
  {
    AsMany(m, images, xs);
    hide AllLinked;
    hide AllLoadable;
    hide Wanted;
    hide Seg;
    hide InMemory;
    hide Arrived;
    hide Bytes;
    forall i, j | 0 <= i < n && 0 <= j < |xs[i].segments| && xs[i].segments[j].kind == 1
      ensures Arrived(m, images[i].begin, xs[i].segments[j], m')
    {
      WantedType1(m, images, xs, i, j);
      InMemoryArrived(m, images[i], xs[i], j, m');
    }
    forall a: nat | a < |m| && (forall i, j | 0 <= i < n && 0 <= j < |xs[i].segments|
                                  && xs[i].segments[j].kind == 1 :: !Lies(xs[i].segments[j], a))
      ensures m'[a] == m[a]
    {
      OutsideAll(m, images, xs, n, a);
    }
  }

  lemma OutsideAll(m: seq<byte>, images: seq<Image>, xs: seq<Executable>, n: nat, a: nat)
    requires AllLinked(m, images, xs) && n <= |xs|
    requires forall i, j | 0 <= i < n && 0 <= j < |xs[i].segments| && xs[i].segments[j].kind == 1 ::
        !Lies(xs[i].segments[j], a)
    ensures Free(m, images, n, a)
  {
    hide AllLinked;
    hide Wanted;
    hide Seg;
    forall i: nat, j: nat | i < n && Wanted(m, images, i, j) ensures !Occupies(Seg(m, images, i, j), a) {
      WantedType1(m, images, xs, i, j);
      assert !Lies(xs[i].segments[j], a);
    }
  }

  /** The entry points are those of the headers. */
  lemma EntriesAsStored(m: seq<byte>, images: seq<Image>, xs: seq<Executable>, entries: seq<nat>, i: nat)
    requires AllLinked(m, images, xs) && EntriesOf(m, images, entries) && i < |entries|
    ensures |xs| == |images| && entries[i] == xs[i].header.entry
  {
    AsMany(m, images, xs);
    OneOf(m, images, xs, i);
    LinkedInside(m, images[i], xs[i]);
    HeadersRead(m, images[i].begin, xs[i]);
    hide Entry;
  }
}
