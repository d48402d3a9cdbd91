/** The ELF fields the two loaders read, little-endian, from an image anywhere in memory. */
module Elf {
  import opened Memory

  const ELF_MAGIC: nat := 0x464C457F
  const ELF_PROG_LOAD: nat := 1
  const HEADER_SIZE: nat := 52
  const PROGHDR_SIZE: nat := 32

  /** A program header. */
  datatype Proghdr = Proghdr(kind: nat, offset: nat, va: nat, filesz: nat, memsz: nat)

  predicate HasHeader(m: seq<byte>, at: nat) {
    at + HEADER_SIZE <= |m|
  }

  function Magic(m: seq<byte>, at: nat): nat
    requires HasHeader(m, at)
  {
    Word(m, at)
  }

  function Entry(m: seq<byte>, at: nat): nat
    requires HasHeader(m, at)
  {
    Word(m, at + 24)
  }

  function PhOff(m: seq<byte>, at: nat): nat
    requires HasHeader(m, at)
  {
    Word(m, at + 28)
  }

  function PhNum(m: seq<byte>, at: nat): nat
    requires HasHeader(m, at)
  {
    Half(m, at + 44)
  }

  function ProghdrAt(m: seq<byte>, at: nat): Proghdr
    requires at + PROGHDR_SIZE <= |m|
  {
    Proghdr(Word(m, at), Word(m, at + 4), Word(m, at + 8), Word(m, at + 16), Word(m, at + 20))
  }

  /** The program headers of the image that starts at `at` are inside `m`. */
  predicate HasProghdrs(m: seq<byte>, at: nat) {
    HasHeader(m, at) && at + PhOff(m, at) + PROGHDR_SIZE * PhNum(m, at) <= |m|
  }

  /** Program header `j` of the image at `at`. */
  function Segment(m: seq<byte>, at: nat, j: nat): Proghdr
    requires HasProghdrs(m, at) && j < PhNum(m, at)
  {
    ProghdrAt(m, at + PhOff(m, at) + PROGHDR_SIZE * j)
  }

  /** The four bytes that an executable begins with. */
  predicate Branded(m: seq<byte>, at: nat)
    requires at + 4 <= |m|
  {
    m[at..at + 4] == [0x7F, 'E' as int, 'L' as int, 'F' as int]
  }

  lemma BrandedIff(m: seq<byte>, at: nat)
    requires HasHeader(m, at)
    ensures Magic(m, at) == ELF_MAGIC <==> Branded(m, at)
  {
    var a: int, b: int, c: int, d: int := m[at], m[at + 1], m[at + 2], m[at + 3];
    assert Magic(m, at) == a + 0x100 * b + 0x1_0000 * c + 0x100_0000 * d;
    assert m[at..at + 4] == [a, b, c, d];
  }

  /** A segment is in memory as its program header asks: its file bytes, then zeros. */
  ghost predicate InMemory(ph: Proghdr, data: seq<byte>, m: seq<byte>) {
    && |data| == ph.filesz && ph.va + ph.filesz <= |m| && ph.va + ph.memsz <= |m|
    && m[ph.va..ph.va + ph.filesz] == data
    && forall a: nat | ph.va + ph.filesz <= a < ph.va + ph.memsz :: m[a] == 0
  }

  /** The `n` bytes of `m` from `at` are those of `m'` from `at'`. */
  ghost predicate Same(m: seq<byte>, at: nat, m': seq<byte>, at': nat, n: nat) {
    at + n <= |m| && at' + n <= |m'| && m[at..at + n] == m'[at'..at' + n]
  }

  lemma SameHalf(m: seq<byte>, at: nat, m': seq<byte>, at': nat, n: nat, i: nat)
    requires Same(m, at, m', at', n) && i + 2 <= n
    ensures Half(m, at + i) == Half(m', at' + i)
  {
    assert m[at..at + n][i] == m'[at'..at' + n][i];
    assert m[at..at + n][i + 1] == m'[at'..at' + n][i + 1];
  }

  lemma SameWord(m: seq<byte>, at: nat, m': seq<byte>, at': nat, n: nat, i: nat)
    requires Same(m, at, m', at', n) && i + 4 <= n
    ensures Word(m, at + i) == Word(m', at' + i)
  {
    SameHalf(m, at, m', at', n, i);
    SameHalf(m, at, m', at', n, i + 2);
  }

  /** Equal bytes hold equal headers. */
  lemma SameHeader(m: seq<byte>, at: nat, m': seq<byte>, at': nat, n: nat)
    requires Same(m, at, m', at', n) && HEADER_SIZE <= n
    ensures Magic(m, at) == Magic(m', at') && Entry(m, at) == Entry(m', at')
    ensures PhOff(m, at) == PhOff(m', at') && PhNum(m, at) == PhNum(m', at')
  {
    hide Word;
    hide Half;
    hide Same;
    SameWord(m, at, m', at', n, 0);
    SameWord(m, at, m', at', n, 24);
    SameWord(m, at, m', at', n, 28);
    SameHalf(m, at, m', at', n, 44);
  }

  lemma SameProghdr(m: seq<byte>, at: nat, m': seq<byte>, at': nat, n: nat, i: nat)
    requires Same(m, at, m', at', n) && i + PROGHDR_SIZE <= n
    ensures ProghdrAt(m, at + i) == ProghdrAt(m', at' + i)
  {
    hide Word;
    SameWord(m, at, m', at', n, i);
    SameWord(m, at, m', at', n, i + 4);
    SameWord(m, at, m', at', n, i + 8);
    SameWord(m, at, m', at', n, i + 16);
    SameWord(m, at, m', at', n, i + 20);
  }
}
