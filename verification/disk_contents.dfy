/** Byte by byte what `mkbootdisk` puts on the disk. */
module DiskContents {
  import opened Memory
  import opened DiskImage

  /** A file of `n` bytes takes as many sectors of 512 bytes as it needs. */
  lemma AfterFile(nsectors: nat, content: seq<byte>)
    ensures After(nsectors, File(content)) == nsectors + (|content| + 511) / 512
  {
  }

  lemma {:induction false} SectorNext(nsectors: nat, args: seq<Arg>, k: nat)
    requires k + 1 < |args|
    ensures SectorOf(nsectors, args, k + 1) == After(SectorOf(nsectors, args, k), args[k])
    decreases k
  {
    hide After;
    if k > 0 {
      SectorNext(After(nsectors, args[0]), args[1..], k - 1);
    } else {
      assert SectorOf(After(nsectors, args[0]), args[1..], 0) == After(nsectors, args[0]);
    }
  }

  /** The first argument begins at sector 1, the one after a file where its last sector ends, and the one
      after `@s` at sector `s`. */
  lemma Sectors(args: seq<Arg>, k: nat)
    requires k < |args|
    ensures k == 0 ==> SectorOf(1, args, k) == 1
    ensures k > 0 && args[k - 1].File? ==>
            SectorOf(1, args, k) == SectorOf(1, args, k - 1) + (|args[k - 1].content| + 511) / 512
    ensures k > 0 && args[k - 1].Skip? ==> SectorOf(1, args, k) == args[k - 1].sector
  {
    if k > 0 {
      SectorNext(1, args, k - 1);
      if args[k - 1].File? {
        AfterFile(SectorOf(1, args, k - 1), args[k - 1].content);
      }
    }
  }

  /** There is an image exactly if the boot code leaves room for the signature and no `@s` comes after
      sector `s`. */
  lemma MakeableIff(boot: seq<byte>, args: seq<Arg>)
    ensures Makeable(boot, args) <==>
            && |boot| <= 510
            && forall k | 0 <= k < |args| && args[k].Skip? :: SectorOf(1, args, k) <= args[k].sector
  {
    AcceptedIff(1, args);
  }

  lemma {:induction false} AcceptedIff(nsectors: nat, args: seq<Arg>)
    ensures Accepted(nsectors, args) <==>
            forall k | 0 <= k < |args| && args[k].Skip? :: SectorOf(nsectors, args, k) <= args[k].sector
    decreases |args|
  {
    hide After;
    if args != [] {
      var next, rest := After(nsectors, args[0]), args[1..];
      AcceptedIff(next, rest);
      forall k | 0 < k < |args|
        ensures SectorOf(nsectors, args, k) == SectorOf(next, rest, k - 1) && args[k] == rest[k - 1]
      {
      }
      hide SectorOf;
      if !Accepted(next, rest) {
        var k :| 0 <= k < |rest| && rest[k].Skip? && !(SectorOf(next, rest, k) <= rest[k].sector);
        assert SectorOf(nsectors, args, k + 1) == SectorOf(next, rest, k) && args[k + 1] == rest[k];
      }
    }
  }

  /** Byte `b` belongs to file `k`. */
  predicate InFile(nsectors: nat, args: seq<Arg>, k: nat, b: nat) {
    && k < |args| && args[k].File?
    && 512 * SectorOf(nsectors, args, k) <= b < 512 * SectorOf(nsectors, args, k) + |args[k].content|
  }

  /** From sector `nsectors` on, bytes of no file are zero. */
  lemma {:induction false} ZeroLayout(nsectors: nat, args: seq<Arg>, b: nat)
    requires Accepted(nsectors, args) && 512 * nsectors <= b < 512 * nsectors + |Layout(nsectors, args)|
    requires forall k: nat :: !InFile(nsectors, args, k, b)
    ensures Layout(nsectors, args)[b - 512 * nsectors] == 0
    decreases |args|
  {
    hide Layout;
    hide Accepted;
    if args == [] {
      LastSectors(nsectors);
    } else {
      NextArg(nsectors, args);
      PieceSectors(nsectors, args[0]);
      var piece, next, rest := Piece(nsectors, args[0]), After(nsectors, args[0]), args[1..];
      if b < 512 * next {
        assert !InFile(nsectors, args, 0, b);
      } else {
        hide After;
        forall k: nat ensures !InFile(next, rest, k, b) {
          assert !InFile(nsectors, args, k + 1, b);
        }
        ZeroLayout(next, rest, b);
      }
    }
  }

  /** The whole image: the boot code, zeros, the signature at bytes 510 and 511, every file from the
      beginning of its sector on, and zeros everywhere else. */
  lemma Contents(boot: seq<byte>, args: seq<Arg>, b: nat)
    requires Makeable(boot, args) && b < |Image(boot, args)|
    ensures b < |boot| ==> Image(boot, args)[b] == boot[b]
    ensures |boot| <= b < 510 ==> Image(boot, args)[b] == 0
    ensures b == 510 ==> Image(boot, args)[b] == 0x55
    ensures b == 511 ==> Image(boot, args)[b] == 0xAA
    ensures forall k: nat | InFile(1, args, k, b) ::
        512 <= b && Image(boot, args)[b] == args[k].content[b - 512 * SectorOf(1, args, k)]
    ensures 512 <= b && (forall k: nat :: !InFile(1, args, k, b)) ==> Image(boot, args)[b] == 0
  {
    hide Layout;
    hide Accepted;
    forall k: nat | InFile(1, args, k, b)
      ensures 512 <= b && Image(boot, args)[b] == args[k].content[b - 512 * SectorOf(1, args, k)]
    {
      FileByte(boot, args, k, b);
    }
    if 512 <= b && forall k: nat :: !InFile(1, args, k, b) {
      ZeroLayout(1, args, b);
    }
  }

  lemma AtLeastOne(boot: seq<byte>, args: seq<Arg>, k: nat)
    requires Makeable(boot, args) && k < |args|
    ensures SectorOf(1, args, k) >= 1
  {
    hide SectorOf;
    OffsetOfSector(1, args, k);
  }

  lemma FileByte(boot: seq<byte>, args: seq<Arg>, k: nat, b: nat)
    requires Makeable(boot, args) && b < |Image(boot, args)| && InFile(1, args, k, b)
    ensures 512 <= b && Image(boot, args)[b] == args[k].content[b - 512 * SectorOf(1, args, k)]
  {
    hide Image;
    hide Makeable;
    var at := 512 * SectorOf(1, args, k);
    FileInImage(boot, args, k);
    AtLeastOne(boot, args, k);
    assert Image(boot, args)[at..at + |Padded(args[k].content)|][b - at] == args[k].content[b - at];
  }

  /** The first sector after all arguments. */
  function EndSector(nsectors: nat, args: seq<Arg>): nat {
    if args == [] then nsectors else After(SectorOf(nsectors, args, |args| - 1), args[|args| - 1])
  }

  lemma {:induction false} LayoutLength(nsectors: nat, args: seq<Arg>)
    requires Accepted(nsectors, args)
    ensures EndSector(nsectors, args) >= nsectors
    ensures var end := EndSector(nsectors, args);
            |Layout(nsectors, args)| == 512 * ((if end < 1024 then 1024 else end) - nsectors)
    decreases |args|
  {
    hide Layout;
    hide Accepted;
    hide Piece;
    if args == [] {
      LastSectors(nsectors);
    } else {
      NextArg(nsectors, args);
      PieceSectors(nsectors, args[0]);
      var next, rest := After(nsectors, args[0]), args[1..];
      LayoutLength(next, rest);
      hide After;
      assert EndSector(nsectors, args) == EndSector(next, rest) by {
        if rest != [] {
          assert SectorOf(nsectors, args, |args| - 1) == SectorOf(next, rest, |rest| - 1);
        }
      }
    }
  }

  /** The image ends where the last argument does, but not before sector 1024. */
  lemma ImageLength(boot: seq<byte>, args: seq<Arg>)
    requires Makeable(boot, args)
    ensures args == [] ==> |Image(boot, args)| == 512 * 1024
    ensures args != [] ==>
            var last, k := args[|args| - 1], |args| - 1;
            var end := if last.File? then SectorOf(1, args, k) + (|last.content| + 511) / 512 else last.sector;
            |Image(boot, args)| == 512 * (if end < 1024 then 1024 else end)
  {
    hide Layout;
    hide Accepted;
    LayoutLength(1, args);
    if args != [] && args[|args| - 1].File? {
      AfterFile(SectorOf(1, args, |args| - 1), args[|args| - 1].content);
    }
  }
}
