/** Loading every application at start-up: the calls of `program_loader` in `start` of
    schedos-kern.c, one after the other in the same memory. */
module ProgramImages {
  import opened Memory
  import opened Elf
  import opened RamLoader

  /** Image `i` wants its program header `j` loaded. */
  predicate Wanted(m: seq<byte>, images: seq<Image>, i: nat, j: nat) {
    i < |images| && HasProghdrs(m, images[i].begin) && Loads(m, images[i], j)
  }

  function Seg(m: seq<byte>, images: seq<Image>, i: nat, j: nat): Proghdr
    requires Wanted(m, images, i, j)
  {
    Segment(m, images[i].begin, j)
  }

  /** Every program can be loaded, and no segment touches an image or a segment of another program. */
  ghost predicate AllLoadable(m: seq<byte>, images: seq<Image>) {
    && (forall i: nat | i < |images| :: Loadable(m, images[i]) && Magic(m, images[i].begin) == ELF_MAGIC)
    && (forall i: nat, j: nat, i': nat | Wanted(m, images, i, j) && i' < |images| ::
          Spares(Seg(m, images, i, j), images[i']))
    && (forall i: nat, j: nat, i': nat, j': nat | i < i' && Wanted(m, images, i, j) && Wanted(m, images, i', j') ::
          Apart(Seg(m, images, i, j), Seg(m, images, i', j')))
  }

  /** Memory `m'` is `m` with the first `n` programs loaded. */
  ghost predicate AllLoaded(m: seq<byte>, images: seq<Image>, n: nat, m': seq<byte>)
    requires AllLoadable(m, images)
  {
    && |m'| == |m|
    && (forall i: nat, j: nat | i < n && Wanted(m, images, i, j) ::
          InMemory(Seg(m, images, i, j), Bytes(m, images[i], Seg(m, images, i, j)), m'))
    && (forall a: nat | a < |m| && Free(m, images, n, a) :: m'[a] == m[a])
  }

  /** No segment of the first `n` programs occupies address `a`. */
  ghost predicate Free(m: seq<byte>, images: seq<Image>, n: nat, a: nat) {
    forall i: nat, j: nat | i < n && Wanted(m, images, i, j) :: !Occupies(Seg(m, images, i, j), a)
  }

  /** Images stay as they are while programs are loaded. */
  lemma ImagesIntact(m: seq<byte>, images: seq<Image>, n: nat, m1: seq<byte>, i: nat)
    requires AllLoadable(m, images) && AllLoaded(m, images, n, m1) && i < |images|
    ensures forall a: nat | images[i].begin <= a < images[i].end :: m1[a] == m[a]
  {
    hide Loadable;
    hide InMemory;
    hide Wanted;
    InsideMemory(m, images[i]);
    forall a: nat | images[i].begin <= a < images[i].end ensures m1[a] == m[a] {
      forall k: nat, j: nat | k < n && Wanted(m, images, k, j) ensures !Occupies(Seg(m, images, k, j), a) {
        assert Spares(Seg(m, images, k, j), images[i]);
      }
      assert Free(m, images, n, a);
    }
  }

  lemma InsideMemory(m: seq<byte>, image: Image)
    requires Loadable(m, image)
    ensures image.begin + HEADER_SIZE <= image.end <= |m|
    ensures HasHeader(m, image.begin) && HasProghdrs(m, image.begin)
    ensures forall j: nat | Loads(m, image, j) :: CanInstall(Segment(m, image.begin, j), image, |m|)
  {
  }

  /** A program can be loaded, in the same way, from an unchanged image. */
  lemma StillLoadable(m: seq<byte>, image: Image, m1: seq<byte>)
    requires Loadable(m, image) && |m1| == |m|
    requires forall a: nat | image.begin <= a < image.end :: m1[a] == m[a]
    ensures HasProghdrs(m1, image.begin) && PhNum(m1, image.begin) == PhNum(m, image.begin)
    ensures Magic(m1, image.begin) == Magic(m, image.begin) && Entry(m1, image.begin) == Entry(m, image.begin)
    ensures forall j: nat | j < PhNum(m, image.begin) :: Segment(m1, image.begin, j) == Segment(m, image.begin, j)
    ensures Loadable(m1, image)
  {
    hide Word;
    hide Half;
    hide ProghdrAt;
    hide Apart;
    hide CanInstall;
    var len := image.end - image.begin;
    assert m1[image.begin..image.begin + len] == m[image.begin..image.begin + len];
    SameHeader(m1, image.begin, m, image.begin, len);
    forall j: nat | j < PhNum(m, image.begin) ensures Segment(m1, image.begin, j) == Segment(m, image.begin, j) {
      SameProghdr(m1, image.begin, m, image.begin, len, PhOff(m, image.begin) + PROGHDR_SIZE * j);
    }
    forall j: nat | Loads(m1, image, j) ensures CanInstall(Segment(m1, image.begin, j), image, |m1|) {
      assert Loads(m, image, j);
    }
    forall j: nat, k: nat | j < k && Loads(m1, image, j) && Loads(m1, image, k)
      ensures Apart(Segment(m1, image.begin, j), Segment(m1, image.begin, k))
    {
      assert Loads(m, image, j) && Loads(m, image, k);
    }
  }

  /** What loading an unchanged image does, in terms of the memory it was unchanged from. */
  lemma LoadedFrom(m: seq<byte>, image: Image, m1: seq<byte>, m2: seq<byte>)
    requires Loadable(m, image) && |m1| == |m|
    requires forall a: nat | image.begin <= a < image.end :: m1[a] == m[a]
    requires Loadable(m1, image) && ProgramLoaded(m1, image, m2)
    ensures forall j: nat | Loads(m, image, j) ::
        InMemory(Segment(m, image.begin, j), Bytes(m, image, Segment(m, image.begin, j)), m2)
    ensures forall a: nat | a < |m| && Untouched(m, image, PhNum(m, image.begin), a) :: m2[a] == m1[a]
  {
    StillLoadable(m, image, m1);
    hide InMemory;
    hide Occupies;
    hide Segment;
    hide HasProghdrs;
    forall j: nat | Loads(m, image, j)
      ensures InMemory(Segment(m, image.begin, j), Bytes(m, image, Segment(m, image.begin, j)), m2)
    {
      var ph := Segment(m, image.begin, j);
      assert Loads(m1, image, j) && CanInstall(ph, image, |m|);
      assert Bytes(m1, image, ph) == Bytes(m, image, ph);
    }
    forall a: nat | a < |m| && Untouched(m, image, PhNum(m, image.begin), a) ensures m2[a] == m1[a] {
      forall j: nat | j < PhNum(m1, image.begin) && Loads(m1, image, j)
        ensures !Occupies(Segment(m1, image.begin, j), a)
      {
        assert Loads(m, image, j);
      }
      assert Untouched(m1, image, PhNum(m1, image.begin), a);
    }
  }

  /** One more program. */
  lemma NextProgram(m: seq<byte>, images: seq<Image>, n: nat, m1: seq<byte>, m2: seq<byte>)
    requires AllLoadable(m, images) && n < |images| && AllLoaded(m, images, n, m1) && |m2| == |m1|
    requires Loadable(m, images[n])
    requires forall j: nat | Loads(m, images[n], j) ::
        InMemory(Segment(m, images[n].begin, j), Bytes(m, images[n], Segment(m, images[n].begin, j)), m2)
    requires forall a: nat | a < |m| && Untouched(m, images[n], PhNum(m, images[n].begin), a) :: m2[a] == m1[a]
    ensures AllLoaded(m, images, n + 1, m2)
  {
    InsideMemory(m, images[n]);
    hide InMemory;
    hide Segment;
    hide HasProghdrs;
    hide Loadable;
    forall i: nat, j: nat | i < n + 1 && Wanted(m, images, i, j)
      ensures InMemory(Seg(m, images, i, j), Bytes(m, images[i], Seg(m, images, i, j)), m2)
    {
      if i < n {
        OtherProgramStays(m, images, n, m1, m2, i, j);
      }
    }
    hide Occupies;
    hide Loads;
    forall a: nat | a < |m| && Free(m, images, n + 1, a) ensures m2[a] == m[a] {
      assert Free(m, images, n, a);
      forall j: nat | j < PhNum(m, images[n].begin) && Loads(m, images[n], j)
        ensures !Occupies(Segment(m, images[n].begin, j), a)
      {
        assert Wanted(m, images, n, j) && Seg(m, images, n, j) == Segment(m, images[n].begin, j);
      }
      assert Untouched(m, images[n], PhNum(m, images[n].begin), a);
    }
  }

  lemma OtherProgramStays(m: seq<byte>, images: seq<Image>, n: nat, m1: seq<byte>, m2: seq<byte>, i: nat, j: nat)
    requires AllLoadable(m, images) && i < n < |images| && Wanted(m, images, i, j) && |m1| == |m2| == |m|
    requires Loadable(m, images[i]) && Loadable(m, images[n])
    requires InMemory(Seg(m, images, i, j), Bytes(m, images[i], Seg(m, images, i, j)), m1)
    requires forall a: nat | a < |m| && Untouched(m, images[n], PhNum(m, images[n].begin), a) :: m2[a] == m1[a]
    ensures InMemory(Seg(m, images, i, j), Bytes(m, images[i], Seg(m, images, i, j)), m2)
  {
    InsideMemory(m, images[i]);
    InsideMemory(m, images[n]);
    hide Segment;
    hide HasProghdrs;
    hide Loadable;
    hide Bytes;
    var ph := Seg(m, images, i, j);
    forall a: nat | a < |m| && Occupies(ph, a) ensures m2[a] == m1[a] {
      forall k: nat | k < PhNum(m, images[n].begin) && Loads(m, images[n], k)
        ensures !Occupies(Segment(m, images[n].begin, k), a)
      {
        assert Wanted(m, images, n, k);
        assert Apart(ph, Seg(m, images, n, k));
      }
      assert Untouched(m, images[n], PhNum(m, images[n].begin), a);
    }
    hide Seg;
    KeptInMemory(ph, Bytes(m, images[i], ph), m1, m2);
  }

  lemma KeptInMemory(ph: Proghdr, data: seq<byte>, m1: seq<byte>, m2: seq<byte>)
    requires InMemory(ph, data, m1) && |m2| == |m1|
    requires forall a: nat | a < |m1| && Occupies(ph, a) :: m2[a] == m1[a]
    ensures InMemory(ph, data, m2)
  {
  }

  /** The entry points of the first `n` programs. */
  ghost predicate EntriesOf(m: seq<byte>, images: seq<Image>, entries: seq<nat>) {
    |entries| <= |images| && forall i: nat | i < |entries| ::
      HasHeader(m, images[i].begin) && entries[i] == Entry(m, images[i].begin)
  }

  /** The loading part of `start`: afterwards every program is in memory as it was linked, at the
      same time, the images are intact, and the entry points are those of the images. */
  method LoadAll(mem: array<byte>, images: seq<Image>, n: nat) returns (entries: seq<nat>)
    requires SCREEN_BASE + 2 <= mem.Length < 0x1_0000_0000 && n <= |images|
    requires AllLoadable(mem[..], images)
    modifies mem
    ensures AllLoaded(old(mem[..]), images, n, mem[..])
    ensures |entries| == n && EntriesOf(old(mem[..]), images, entries)
  {
    hide Loadable;
    hide AllLoaded;
    hide LoadedUpTo;
    hide HasProghdrs;
    hide Word;
    hide Half;
    hide Panic;
    ghost var was := mem[..];
    entries := [];
    NoneLoaded(was, images);
    var i := 0;
    while i < n
      invariant 0 <= i <= n && mem.Length == |was| && AllLoaded(was, images, i, mem[..])
      invariant |entries| == i && EntriesOf(was, images, entries)
    {
      ghost var before := mem[..];
      ImagesIntact(was, images, i, before, i);
      StillLoadable(was, images[i], before);
      InsideMemory(was, images[i]);
      var o := ProgramLoader(mem, images, i);
      LoadedFrom(was, images[i], before, mem[..]);
      NextProgram(was, images, i, before, mem[..]);
      assert o == Started(Entry(was, images[i].begin));
      entries := entries + [o.entry];
      i := i + 1;
    }
  }

  lemma NoneLoaded(m: seq<byte>, images: seq<Image>)
    requires AllLoadable(m, images)
    ensures AllLoaded(m, images, 0, m)
  {
  }
}
