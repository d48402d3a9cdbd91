/** The ELF structures of elf.h as they lie in memory, and reading their fields back. */
module ElfLayout {
  import opened Memory
  import opened Elf

  type half = x: int | 0 <= x < 0x1_0000
  type word = x: int | 0 <= x < 0x1_0000_0000

  function HalfBytes(w: half): (s: seq<byte>)
    ensures |s| == 2
  {
    [w % 0x100, w / 0x100]
  }

  function WordBytes(w: word): (s: seq<byte>)
    ensures |s| == 4
  {
    HalfBytes(w % 0x1_0000) + HalfBytes(w / 0x1_0000)
  }

  /** `struct Elf`. */
  datatype ElfHeader = ElfHeader(
    magic: word, ident: seq<byte>, kind: half, machine: half, version: word, entry: word, phoff: word, shoff: word,
    flags: word, ehsize: half, phentsize: half, phnum: half, shentsize: half, shnum: half, shstrndx: half)

  /** `struct Proghdr`. */
  datatype ProgramHeader = ProgramHeader(
    kind: word, offset: word, va: word, pa: word, filesz: word, memsz: word, flags: word, align: word)

  function HeaderBytes(h: ElfHeader): (s: seq<byte>)
    requires |h.ident| == 12
    ensures |s| == HEADER_SIZE
  {
    WordBytes(h.magic) + h.ident + HalfBytes(h.kind) + HalfBytes(h.machine) + WordBytes(h.version)
    + WordBytes(h.entry) + WordBytes(h.phoff) + WordBytes(h.shoff) + WordBytes(h.flags)
    + HalfBytes(h.ehsize) + HalfBytes(h.phentsize) + HalfBytes(h.phnum)
    + HalfBytes(h.shentsize) + HalfBytes(h.shnum) + HalfBytes(h.shstrndx)
  }

  function ProgramHeaderBytes(p: ProgramHeader): (s: seq<byte>)
    ensures |s| == PROGHDR_SIZE
  {
    WordBytes(p.kind) + WordBytes(p.offset) + WordBytes(p.va) + WordBytes(p.pa)
    + WordBytes(p.filesz) + WordBytes(p.memsz) + WordBytes(p.flags) + WordBytes(p.align)
  }

  /** The bytes `s` lie in `m` at `at`. */
  ghost predicate At(m: seq<byte>, at: nat, s: seq<byte>) {
    at + |s| <= |m| && m[at..at + |s|] == s
  }

  lemma AtParts(m: seq<byte>, at: nat, s: seq<byte>, t: seq<byte>)
    requires At(m, at, s + t)
    ensures At(m, at, s) && At(m, at + |s|, t)
  {
    assert m[at..at + |s + t|][..|s|] == s && m[at..at + |s + t|][|s|..] == t;
  }

  lemma HalfReadsBack(m: seq<byte>, at: nat, w: half)
    requires At(m, at, HalfBytes(w))
    ensures Half(m, at) == w
  {
    assert m[at] == m[at..at + 2][0] && m[at + 1] == m[at..at + 2][1];
  }

  lemma WordReadsBack(m: seq<byte>, at: nat, w: word)
    requires At(m, at, WordBytes(w))
    ensures Word(m, at) == w
  {
    AtParts(m, at, HalfBytes(w % 0x1_0000), HalfBytes(w / 0x1_0000));
    HalfReadsBack(m, at, w % 0x1_0000);
    HalfReadsBack(m, at + 2, w / 0x1_0000);
  }

  /** The loaders read a program header's fields as they were stored. */
  lemma ProgramHeaderReadsBack(m: seq<byte>, at: nat, p: ProgramHeader)
    requires At(m, at, ProgramHeaderBytes(p))
    ensures ProghdrAt(m, at) == Proghdr(p.kind, p.offset, p.va, p.filesz, p.memsz)
  {
    hide WordBytes;
    hide At;
    hide Word;
    var a, b, c, d := WordBytes(p.kind), WordBytes(p.offset), WordBytes(p.va), WordBytes(p.pa);
    var e, f, g, h := WordBytes(p.filesz), WordBytes(p.memsz), WordBytes(p.flags), WordBytes(p.align);
    AtParts(m, at, a + b + c + d + e + f + g, h);
    AtParts(m, at, a + b + c + d + e + f, g);
    AtParts(m, at, a + b + c + d + e, f);
    AtParts(m, at, a + b + c + d, e);
    AtParts(m, at, a + b + c, d);
    AtParts(m, at, a + b, c);
    AtParts(m, at, a, b);
    WordReadsBack(m, at, p.kind);
    WordReadsBack(m, at + 4, p.offset);
    WordReadsBack(m, at + 8, p.va);
    WordReadsBack(m, at + 16, p.filesz);
    WordReadsBack(m, at + 20, p.memsz);
  }

  /** And the fields of the file header. */
  lemma HeaderReadsBack(m: seq<byte>, at: nat, h: ElfHeader)
    requires |h.ident| == 12 && At(m, at, HeaderBytes(h))
    ensures HasHeader(m, at) && Magic(m, at) == h.magic && Entry(m, at) == h.entry
    ensures PhOff(m, at) == h.phoff && PhNum(m, at) == h.phnum
  {
    hide WordBytes;
    hide HalfBytes;
    hide Word;
    hide Half;
    var first := WordBytes(h.magic) + h.ident + HalfBytes(h.kind) + HalfBytes(h.machine) + WordBytes(h.version);
    var middle := WordBytes(h.entry) + WordBytes(h.phoff);
    var next := WordBytes(h.shoff) + WordBytes(h.flags) + HalfBytes(h.ehsize) + HalfBytes(h.phentsize);
    var last := HalfBytes(h.shentsize) + HalfBytes(h.shnum) + HalfBytes(h.shstrndx);
    assert HeaderBytes(h) == first + middle + next + HalfBytes(h.phnum) + last;
    hide HeaderBytes;
    AtParts(m, at, first + middle + next + HalfBytes(h.phnum), last);
    AtParts(m, at, first + middle + next, HalfBytes(h.phnum));
    AtParts(m, at, first + middle, next);
    AtParts(m, at, first, middle);
    AtParts(m, at + 24, WordBytes(h.entry), WordBytes(h.phoff));
    MagicFirst(m, at, h);
    hide At;
    WordReadsBack(m, at + 24, h.entry);
    WordReadsBack(m, at + 28, h.phoff);
    HalfReadsBack(m, at + 44, h.phnum);
  }

  lemma MagicFirst(m: seq<byte>, at: nat, h: ElfHeader)
    requires |h.ident| == 12 && HasHeader(m, at)
    requires At(m, at, WordBytes(h.magic) + h.ident + HalfBytes(h.kind) + HalfBytes(h.machine) + WordBytes(h.version))
    ensures Magic(m, at) == h.magic
  {
    hide WordBytes;
    hide HalfBytes;
    hide Word;
    hide At;
    AtParts(m, at, WordBytes(h.magic) + h.ident + HalfBytes(h.kind) + HalfBytes(h.machine), WordBytes(h.version));
    AtParts(m, at, WordBytes(h.magic) + h.ident + HalfBytes(h.kind), HalfBytes(h.machine));
    AtParts(m, at, WordBytes(h.magic) + h.ident, HalfBytes(h.kind));
    AtParts(m, at, WordBytes(h.magic), h.ident);
    WordReadsBack(m, at, h.magic);
  }
}
