/** `mkbootdisk`: the image it promises, and the loops that write it through a `write` call that may
    take less than it is given, be interrupted or fail. */
module DiskImage {
  import opened Memory

  const SECTORSIZE: nat := 512
  const DISK_SECTORS: nat := 1024
  const BOOT_LIMIT: nat := 510
  const BUFSIZE: nat := 4096

  /** An argument after the boot sector: a file, or `@k`, which skips to sector `k`. */
  datatype Arg = File(content: seq<byte>) | Skip(sector: nat)

  // ----- The image -----

  function Zeros(n: nat): (s: seq<byte>)
    ensures |s| == n && forall i | 0 <= i < n :: s[i] == 0
  {
    seq(n, _ => 0)
  }

  function BootSector(boot: seq<byte>): (s: seq<byte>)
    requires |boot| <= BOOT_LIMIT
    ensures |s| == SECTORSIZE
  {
    boot + Zeros(BOOT_LIMIT - |boot|) + [0x55, 0xAA]
  }

  function Padded(content: seq<byte>): (s: seq<byte>)
    ensures |s| % SECTORSIZE == 0 && content <= s
  {
    content + Zeros(RoundUp(|content|, SECTORSIZE) - |content|)
  }

  lemma PadRest(content: seq<byte>)
    ensures var r := |content| % SECTORSIZE;
            Padded(content) == if r == 0 then content else content + Zeros(SECTORSIZE - r)
  {
  }

  /** No argument asks to skip back, the next free sector being `nsectors`. */
  predicate Accepted(nsectors: nat, args: seq<Arg>)
    decreases |args|
  {
    args != [] ==>
      && (args[0].Skip? ==> nsectors <= args[0].sector)
      && Accepted(After(nsectors, args[0]), args[1..])
  }

  /** The next free sector after an argument. */
  function After(nsectors: nat, a: Arg): nat {
    match a
    case File(content) => nsectors + |Padded(content)| / SECTORSIZE
    case Skip(sector) => sector
  }

  function Piece(nsectors: nat, a: Arg): seq<byte>
    requires a.Skip? ==> nsectors <= a.sector
  {
    match a
    case File(content) => Padded(content)
    case Skip(sector) => Zeros(SECTORSIZE * (sector - nsectors))
  }

  /** The image from sector `nsectors` on. */
  function Layout(nsectors: nat, args: seq<Arg>): seq<byte>
    requires Accepted(nsectors, args)
    decreases |args|
  {
    if args == [] then Zeros(if nsectors < DISK_SECTORS then SECTORSIZE * (DISK_SECTORS - nsectors) else 0)
    else Piece(nsectors, args[0]) + Layout(After(nsectors, args[0]), args[1..])
  }

  predicate Makeable(boot: seq<byte>, args: seq<Arg>) {
    |boot| <= BOOT_LIMIT && Accepted(1, args)
  }

  function Image(boot: seq<byte>, args: seq<Arg>): seq<byte>
    requires Makeable(boot, args)
  {
    BootSector(boot) + Layout(1, args)
  }

  /** The sector at which argument `k` begins. */
  function SectorOf(nsectors: nat, args: seq<Arg>, k: nat): nat
    requires k < |args|
    decreases k
  {
    if k == 0 then nsectors else SectorOf(After(nsectors, args[0]), args[1..], k - 1)
  }

  lemma PieceSectors(nsectors: nat, a: Arg)
    requires a.Skip? ==> nsectors <= a.sector
    ensures |Piece(nsectors, a)| == SECTORSIZE * (After(nsectors, a) - nsectors)
    ensures After(nsectors, a) >= nsectors
  {
  }

  lemma NextArg(nsectors: nat, args: seq<Arg>)
    requires args != []
    ensures var (a, next) := (args[0], After(nsectors, args[0]));
            && (Accepted(nsectors, args) <==> (a.Skip? ==> nsectors <= a.sector) && Accepted(next, args[1..]))
            && (Accepted(nsectors, args) ==> Layout(nsectors, args) == Piece(nsectors, a) + Layout(next, args[1..]))
  {
  }

  lemma LastSectors(nsectors: nat)
    ensures Accepted(nsectors, [])
    ensures Layout(nsectors, []) == Zeros(if nsectors < DISK_SECTORS then SECTORSIZE * (DISK_SECTORS - nsectors) else 0)
  {
  }

  /** `t` is in `s` at index `at`. */
  ghost predicate Holds(s: seq<byte>, at: nat, t: seq<byte>) {
    at + |t| <= |s| && s[at..at + |t|] == t
  }

  lemma HoldsFirst(p: seq<byte>, rest: seq<byte>)
    ensures Holds(p + rest, 0, p)
  {
  }

  lemma HoldsAfter(p: seq<byte>, rest: seq<byte>, at: nat, t: seq<byte>)
    requires Holds(rest, at, t)
    ensures Holds(p + rest, |p| + at, t)
  {
  }

  /** The byte of the layout at which argument `k` begins. */
  function Offset(nsectors: nat, args: seq<Arg>, k: nat): nat
    requires Accepted(nsectors, args) && k < |args|
    decreases k
  {
    if k == 0 then 0 else |Piece(nsectors, args[0])| + Offset(After(nsectors, args[0]), args[1..], k - 1)
  }

  lemma {:induction false} OffsetOfSector(nsectors: nat, args: seq<Arg>, k: nat)
    requires Accepted(nsectors, args) && k < |args|
    ensures SectorOf(nsectors, args, k) >= nsectors
    ensures Offset(nsectors, args, k) == SECTORSIZE * (SectorOf(nsectors, args, k) - nsectors)
    decreases k
  {
    if k > 0 {
      PieceSectors(nsectors, args[0]);
      OffsetOfSector(After(nsectors, args[0]), args[1..], k - 1);
      hide Piece;
      hide After;
    }
  }

  lemma {:induction false} FileInLayout(nsectors: nat, args: seq<Arg>, k: nat)
    requires Accepted(nsectors, args) && k < |args| && args[k].File?
    ensures Holds(Layout(nsectors, args), Offset(nsectors, args, k), Padded(args[k].content))
    decreases k
  {
    hide *;
    if k == 0 {
      FirstFile(nsectors, args);
    } else {
      LaterArg(nsectors, args, k);
      var next, rest := After(nsectors, args[0]), args[1..];
      FileInLayout(next, rest, k - 1);
      HoldsAfter(Piece(nsectors, args[0]), Layout(next, rest), Offset(next, rest, k - 1), Padded(args[k].content));
    }
  }

  lemma FirstFile(nsectors: nat, args: seq<Arg>)
    requires Accepted(nsectors, args) && args != [] && args[0].File?
    ensures Holds(Layout(nsectors, args), Offset(nsectors, args, 0), Padded(args[0].content))
  {
    hide Padded;
    hide Holds;
    HoldsFirst(Piece(nsectors, args[0]), Layout(After(nsectors, args[0]), args[1..]));
  }

  lemma LaterArg(nsectors: nat, args: seq<Arg>, k: nat)
    requires Accepted(nsectors, args) && 0 < k < |args|
    ensures var a, next, rest := args[0], After(nsectors, args[0]), args[1..];
            && (a.Skip? ==> nsectors <= a.sector) && Accepted(next, rest) && rest[k - 1] == args[k]
            && Layout(nsectors, args) == Piece(nsectors, a) + Layout(next, rest)
            && Offset(nsectors, args, k) == |Piece(nsectors, a)| + Offset(next, rest, k - 1)
  {
    hide Piece;
    hide After;
  }

  /** Every file of the arguments is in the image, whole, at the beginning of its sector, and
      followed by zeros to the end of its last sector. */
  lemma FileInImage(boot: seq<byte>, args: seq<Arg>, k: nat)
    requires Makeable(boot, args) && k < |args| && args[k].File?
    ensures Holds(Image(boot, args), SECTORSIZE * SectorOf(1, args, k), Padded(args[k].content))
  {
    hide Layout;
    hide Padded;
    hide BootSector;
    hide Holds;
    hide SectorOf;
    hide Offset;
    OffsetOfSector(1, args, k);
    FileInLayout(1, args, k);
    HoldsAfter(BootSector(boot), Layout(1, args), Offset(1, args, k), Padded(args[k].content));
  }

  /** The image is a whole number of sectors, and at least a disk's worth. */
  lemma {:induction false} LayoutSize(nsectors: nat, args: seq<Arg>)
    requires Accepted(nsectors, args)
    ensures |Layout(nsectors, args)| % SECTORSIZE == 0
    ensures |Layout(nsectors, args)| >= SECTORSIZE * (DISK_SECTORS - nsectors)
    decreases |args|
  {
    hide Layout;
    hide Piece;
    hide After;
    hide Accepted;
    if args == [] {
      LastSectors(nsectors);
    } else {
      NextArg(nsectors, args);
      PieceSectors(nsectors, args[0]);
      LayoutSize(After(nsectors, args[0]), args[1..]);
    }
  }

  /** The BIOS signature ends the first sector, and the image is a whole number of sectors, at
      least 1024. */
  lemma ImageShape(boot: seq<byte>, args: seq<Arg>)
    requires Makeable(boot, args)
    ensures var image := Image(boot, args);
            && boot <= image && image[510] == 0x55 && image[511] == 0xAA
            && |image| % SECTORSIZE == 0 && |image| >= SECTORSIZE * DISK_SECTORS
  {
    LayoutSize(1, args);
    hide Layout;
    hide Accepted;
    assert Image(boot, args)[510..512] == [0x55, 0xAA];
  }

  // ----- Writing it -----

  /** What one call of `write` reports: the bytes it took, EINTR, or another error. */
  datatype Write = Wrote(n: nat) | Interrupted | Failed

  /** How a run ends: all written, given up, or still retrying when the reports run out. */
  datatype Outcome = Done | Aborted | Pending

  datatype Progress = Progress(outcome: Outcome, sent: nat, rest: seq<Write>)

  function Taken(n: nat, amt: nat): nat {
    if n < amt then n else amt
  }

  /** Writing `amt` bytes against a list of reports. */
  function Transfer(results: seq<Write>, amt: nat): (p: Progress)
    ensures p.sent <= amt && (p.outcome.Done? <==> p.sent == amt)
    ensures p.outcome.Pending? ==> p.rest == []
    decreases |results|
  {
    if amt == 0 then Progress(Done, 0, results)
    else if results == [] then Progress(Pending, 0, [])
    else
      match results[0]
      case Interrupted => Transfer(results[1..], amt)
      case Failed => Progress(Aborted, 0, results[1..])
      case Wrote(n) =>
        if n == 0 then Progress(Aborted, 0, results[1..])
        else
          var p := Transfer(results[1..], amt - Taken(n, amt));
          p.(sent := p.sent + Taken(n, amt))
  }

  /** Report by report: an error or a write of no bytes ends it, an interrupted write is tried again, a
      short one goes on with the rest. */
  lemma TransferByReport(more: seq<Write>, amt: nat, n: nat)
    requires amt > 0
    ensures Transfer(more, 0) == Progress(Done, 0, more) && Transfer([], amt) == Progress(Pending, 0, [])
    ensures Transfer([Failed] + more, amt) == Progress(Aborted, 0, more)
    ensures Transfer([Wrote(0)] + more, amt) == Progress(Aborted, 0, more)
    ensures Transfer([Interrupted] + more, amt) == Transfer(more, amt)
    ensures 0 < n < amt ==>
            var p := Transfer(more, amt - n);
            Transfer([Wrote(n)] + more, amt) == Progress(p.outcome, n + p.sent, p.rest)
    ensures n >= amt ==> Transfer([Wrote(n)] + more, amt) == Progress(Done, amt, more)
  {
    assert ([Failed] + more)[1..] == more && ([Wrote(0)] + more)[1..] == more;
    assert ([Interrupted] + more)[1..] == more && ([Wrote(n)] + more)[1..] == more;
  }

  /** No report is an error or end of file. */
  predicate Healthy(results: seq<Write>) {
    forall w | w in results :: w.Interrupted? || (w.Wrote? && w.n > 0)
  }

  /** Only an error report makes a write give up, however short or interrupted the others are. */
  lemma {:induction false} HealthyTransfer(results: seq<Write>, amt: nat)
    requires Healthy(results)
    ensures !Transfer(results, amt).outcome.Aborted? && Healthy(Transfer(results, amt).rest)
    decreases |results|
  {
    if amt != 0 && results != [] {
      assert results[0] in results;
      var amt' := if results[0].Wrote? then amt - Taken(results[0].n, amt) else amt;
      HealthyTransfer(results[1..], amt');
    }
  }

  lemma PrefixGrows(f: seq<byte>, data: seq<byte>, i: nat, n: nat)
    requires i + n <= |data|
    ensures f + data[..i] + data[i..i + n] == f + data[..i + n]
  {
  }

  lemma PrefixOf(f: seq<byte>, f': seq<byte>, piece: seq<byte>, rest: seq<byte>)
    requires f <= f' <= f + piece
    ensures f' <= f + (piece + rest) && f + (piece + rest) == f + piece + rest
  {
  }

  /** The globals `curoff` and `maxoff`, with the file they describe and the reports to come. */
  class Writer {
    var file: seq<byte>
    var curoff: nat
    var results: seq<Write>
    const maxoff: nat

    ghost predicate Valid()
      reads this
    {
      curoff == |file|
    }

    constructor (maxoff: nat, results: seq<Write>)
      ensures Valid() && file == [] && this.maxoff == maxoff && this.results == results
    {
      file, curoff, this.maxoff, this.results := [], 0, maxoff, results;
    }

    /** `diskwrite`: whatever the reports are, the bytes that reach the file are a prefix of the
        data, in order and once each; all of them if it succeeds. */
    method DiskWrite(data: seq<byte>) returns (o: Outcome)
      requires Valid()
      modifies this
      ensures Valid()
      ensures maxoff != 0 && old(curoff) + |data| > maxoff ==>
          o == Aborted && file == old(file) && results == old(results)
      ensures !(maxoff != 0 && old(curoff) + |data| > maxoff) ==>
          var p := Transfer(old(results), |data|);
          o == p.outcome && results == p.rest && file == old(file) + data[..p.sent]
      ensures o.Done? ==> file == old(file) + data
      ensures old(file) <= file <= old(file) + data
      ensures o.Pending? ==> results == []
      ensures Healthy(old(results)) && maxoff == 0 ==> !o.Aborted? && Healthy(results)
    {
      hide Healthy;
      if maxoff != 0 && curoff + |data| > maxoff {
        return Aborted;
      }
      if Healthy(results) {
        HealthyTransfer(results, |data|);
      }
      var amt := 0;
      ghost var all := Transfer(results, |data|);
      while amt < |data|
        invariant 0 <= amt <= |data| && Valid() && file == old(file) + data[..amt]
        invariant var p := Transfer(results, |data| - amt);
            all == p.(sent := p.sent + amt)
        decreases |results|
      {
        if results == [] {
          return Pending;
        }
        var w := results[0];
        results := results[1..];
        match w {
          case Interrupted =>
          case Failed =>
            return Aborted;
          case Wrote(n) =>
            if n == 0 {
              return Aborted;
            }
            var k := Taken(n, |data| - amt);
            file := file + data[amt..amt + k];
            curoff := curoff + k;
            PrefixGrows(old(file), data, amt, k);
            amt := amt + k;
        }
      }
      return Done;
    }

    /** The loops that write zero sectors up to sector `until`. */
    method ZeroSectors(nsectors0: nat, until: nat) returns (o: Outcome, nsectors: nat)
      requires Valid() && |file| == SECTORSIZE * nsectors0
      modifies this
      ensures Valid() && (Healthy(old(results)) && maxoff == 0 ==> !o.Aborted? && Healthy(results))
      ensures o.Pending? ==> results == []
      ensures var zeros := Zeros(if nsectors0 < until then SECTORSIZE * (until - nsectors0) else 0);
          old(file) <= file <= old(file) + zeros
          && (o.Done? ==> file == old(file) + zeros && nsectors == if nsectors0 < until then until else nsectors0)
    {
      hide Transfer;
      nsectors := nsectors0;
      ghost var zeros := Zeros(if nsectors0 < until then SECTORSIZE * (until - nsectors0) else 0);
      o := Done;
      while nsectors < until
        invariant Valid() && nsectors0 <= nsectors && o.Done?
        invariant nsectors0 < until ==> nsectors <= until
        invariant nsectors0 >= until ==> nsectors == nsectors0
        invariant |file| == SECTORSIZE * nsectors && file == old(file) + zeros[..SECTORSIZE * (nsectors - nsectors0)]
        invariant Healthy(old(results)) && maxoff == 0 ==> Healthy(results)
      {
        ghost var at := SECTORSIZE * (nsectors - nsectors0);
        o := DiskWrite(Zeros(SECTORSIZE));
        assert zeros[..at] + Zeros(SECTORSIZE) == zeros[..at + SECTORSIZE];
        if !o.Done? {
          return;
        }
        nsectors := nsectors + 1;
      }
    }

    /** The loop that copies one file, 4096 bytes at a time, and the padding after it. */
    method CopyFile(content: seq<byte>) returns (o: Outcome, pos: nat)
      requires Valid()
      modifies this
      ensures Valid() && (Healthy(old(results)) && maxoff == 0 ==> !o.Aborted? && Healthy(results))
      ensures o.Pending? ==> results == []
      ensures old(file) <= file <= old(file) + Padded(content)
      ensures o.Done? ==> file == old(file) + Padded(content) && pos == |Padded(content)|
    {
      hide Transfer;
      hide Healthy;
      PadRest(content);
      hide Padded;
      pos := 0;
      while pos < |content|
        invariant 0 <= pos <= |content| && Valid() && file == old(file) + content[..pos]
        invariant Healthy(old(results)) && maxoff == 0 ==> Healthy(results)
      {
        var n := if |content| - pos < BUFSIZE then |content| - pos else BUFSIZE;
        o := DiskWrite(content[pos..pos + n]);
        PrefixGrows(old(file), content, pos, n);
        if !o.Done? {
          return;
        }
        pos := pos + n;
      }
      o := Done;
      if pos % SECTORSIZE != 0 {
        var n := SECTORSIZE - pos % SECTORSIZE;
        o := DiskWrite(Zeros(n));
        assert old(file) + content + Zeros(n) == old(file) + (content + Zeros(n));
        pos := pos + n;
      }
    }

    /** One argument: the body of the loop over them. */
    method WriteArg(nsectors0: nat, a: Arg) returns (o: Outcome, nsectors: nat)
      requires Valid() && |file| == SECTORSIZE * nsectors0
      modifies this
      ensures Valid() && (o.Pending? ==> results == [])
      ensures if a.Skip? && a.sector < nsectors0 then o.Aborted? && file == old(file) else
                && old(file) <= file <= old(file) + Piece(nsectors0, a)
                && (o.Done? ==> file == old(file) + Piece(nsectors0, a) && nsectors == After(nsectors0, a))
                && (Healthy(old(results)) && maxoff == 0 ==> !o.Aborted? && Healthy(results))
    {
      hide Transfer;
      hide Healthy;
      hide Padded;
      hide Zeros;
      nsectors := nsectors0;
      match a {
        case Skip(sector) =>
          if nsectors > sector {
            return Aborted, nsectors;
          }
          o, nsectors := ZeroSectors(nsectors, sector);
        case File(content) =>
          var pos;
          o, pos := CopyFile(content);
          if o.Done? {
            nsectors := nsectors + pos / SECTORSIZE;
          }
      }
    }

    /** `main`: a run that succeeds leaves exactly the image, and one that fails leaves a prefix of
        it; it succeeds if no write reports an error and the reports do not run out.  Between
        arguments the file ends at byte `512 * nsectors`. */
    method MakeDisk(boot: seq<byte>, args: seq<Arg>) returns (o: Outcome)
      requires Valid() && file == []
      modifies this
      ensures Valid() && (o.Pending? ==> results == [])
      ensures o.Done? ==> Makeable(boot, args) && file == Image(boot, args)
      ensures Makeable(boot, args) ==> file <= Image(boot, args)
      ensures Makeable(boot, args) && Healthy(old(results)) && maxoff == 0 ==> !o.Aborted?
    {
      hide Transfer;
      hide Accepted;
      hide Layout;
      hide Healthy;
      hide BootSector;
      hide Piece;
      hide After;
      if |boot| > BOOT_LIMIT {
        return Aborted;
      }
      o := DiskWrite(BootSector(boot));
      if !o.Done? {
        return;
      }
      var nsectors := 1;
      var i := 0;
      while i < |args|
        invariant 0 <= i <= |args| && Valid() && nsectors >= 0 && |file| == SECTORSIZE * nsectors
        invariant Accepted(1, args) <==> Accepted(nsectors, args[i..])
        invariant Accepted(1, args) ==> file + Layout(nsectors, args[i..]) == Image(boot, args)
        invariant Healthy(old(results)) && maxoff == 0 ==> Healthy(results)
      {
        ghost var written := file;
        ghost var at := nsectors;
        var a := args[i];
        assert args[i..][0] == a && args[i..][1..] == args[i + 1..];
        NextArg(at, args[i..]);
        o, nsectors := WriteArg(nsectors, a);
        if Accepted(1, args) {
          PrefixOf(written, file, Piece(at, a), Layout(After(at, a), args[i + 1..]));
        }
        if !o.Done? {
          return;
        }
        PieceSectors(at, a);
        i := i + 1;
      }
      assert args[i..] == [];
      LastSectors(nsectors);
      o, nsectors := ZeroSectors(nsectors, DISK_SECTORS);
    }
  }
}
