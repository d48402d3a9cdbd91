/** The order in which the applications take turns under policy 3 when nothing but their own system
    calls reschedules, worked out to laps of bursts. */
module ShareTurns {
  import opened Scheduling
  import opened Applications
  import opened Turns

  /** The share in the table when process `p` has made `a` calls: zero until it has set its own. */
  function ShareAt(c: Config, p: nat, a: nat): int
    requires Pid(c, p)
  {
    if a >= 2 then AppOf(c, p).share else 0
  }

  /** The count after the call number `a`: setting the share resets it. */
  function CountAfter(num: nat, a: nat): nat {
    if a == 1 then 0 else num
  }

  predicate Willing(c: Config, pos: seq<nat>, p: int) {
    Live(c, pos, p) && 0 <= ShareAt(c, p, pos[p])
  }

  ghost predicate AnyWilling(c: Config, pos: seq<nat>) {
    exists p: nat :: Willing(c, pos, p)
  }

  /** The first willing process in cyclic order after `cur`. */
  ghost predicate Nearest(c: Config, pos: seq<nat>, cur: nat, p: nat) {
    Willing(c, pos, p) && forall q: nat | Willing(c, pos, q) :: Dist(Slots(c), cur, p) <= Dist(Slots(c), cur, q)
  }

  lemma NearestWilling(c: Config, pos: seq<nat>, cur: nat)
    requires AnyWilling(c, pos)
    ensures exists p: nat :: Nearest(c, pos, cur, p)
  {
    var eligible: set<int> := set q: int | 0 <= q < |pos| && Willing(c, pos, q);
    var w: nat :| Willing(c, pos, w);
    assert w in eligible;
    var p := NearestExists(Slots(c), cur, eligible);
    assert Nearest(c, pos, cur, p);
  }

  lemma NearestUnique(c: Config, pos: seq<nat>, cur: nat, p: nat, q: nat)
    requires cur < Slots(c) && Nearest(c, pos, cur, p) && Nearest(c, pos, cur, q)
    ensures p == q
  {
  }

  predicate Stays(c: Config, pos: seq<nat>, cur: nat, num: nat) {
    Live(c, pos, cur) && num <= ShareAt(c, cur, pos[cur])
  }

  /** All the turns taken from the moment `schedule` is called by process `cur`, whose count is `num`,
      when each process has already taken `pos` turns. */
  ghost function TurnsOf(c: Config, pos: seq<nat>, cur: nat, num: nat): seq<Turn>
    requires |pos| == Slots(c)
    decreases Left(c, pos, |c.apps|)
  {
    if Stays(c, pos, cur, num) then
      LeftDrops(c, pos, cur, |c.apps|);
      [Turn(cur, pos[cur])] + TurnsOf(c, pos[cur := pos[cur] + 1], cur, CountAfter(num + 1, pos[cur]))
    else if AnyWilling(c, pos) then
      NearestWilling(c, pos, cur);
      var p: nat :| Nearest(c, pos, cur, p);
      LeftDrops(c, pos, p, |c.apps|);
      [Turn(p, pos[p])] + TurnsOf(c, pos[p := pos[p] + 1], p, CountAfter(1, pos[p]))
    else []
  }

  /** The turns of a whole run: process 1 runs first, with no count yet. */
  ghost function WholeShare(c: Config): seq<Turn>
    requires Pid(c, 1)
  {
    [Turn(1, 0)] + TurnsOf(c, Start(c)[1 := 1], 1, 0)
  }

  /** The turns after the present turn of `cur` is over. */
  ghost function Onward(c: Config, pos: seq<nat>, cur: nat): seq<Turn>
    requires |pos| == Slots(c)
  {
    if AnyWilling(c, pos) then
      NearestWilling(c, pos, cur);
      var p: nat :| Nearest(c, pos, cur, p);
      [Turn(p, pos[p])] + TurnsOf(c, pos[p := pos[p] + 1], p, CountAfter(1, pos[p]))
    else []
  }

  lemma OverIsOnward(c: Config, pos: seq<nat>, cur: nat, num: nat)
    requires |pos| == Slots(c) && cur < Slots(c) && !Stays(c, pos, cur, num)
    ensures TurnsOf(c, pos, cur, num) == Onward(c, pos, cur)
  {
    if AnyWilling(c, pos) {
      NearestWilling(c, pos, cur);
      forall p: nat, q: nat | Nearest(c, pos, cur, p) && Nearest(c, pos, cur, q) ensures p == q {
        NearestUnique(c, pos, cur, p, q);
      }
    }
  }

  lemma OnwardTo(c: Config, pos: seq<nat>, cur: nat, p: nat)
    requires |pos| == Slots(c) && cur < Slots(c) && Nearest(c, pos, cur, p)
    ensures Onward(c, pos, cur) == [Turn(p, pos[p])] + TurnsOf(c, pos[p := pos[p] + 1], p, CountAfter(1, pos[p]))
  {
    hide TurnsOf;
    forall q: nat | Nearest(c, pos, cur, q) ensures p == q {
      NearestUnique(c, pos, cur, p, q);
    }
  }

  /** The slot after `cur`. */
  function After1(c: Config, cur: nat): nat {
    if cur + 1 < Slots(c) then cur + 1 else 0
  }

  /** A slot that is not willing is passed over. */
  lemma SkipUnwilling(c: Config, pos: seq<nat>, cur: nat)
    requires |pos| == Slots(c) && cur < Slots(c) && !Willing(c, pos, After1(c, cur))
    ensures Onward(c, pos, cur) == Onward(c, pos, After1(c, cur))
  {
    hide TurnsOf;
    if AnyWilling(c, pos) {
      NearestWilling(c, pos, cur);
      var p: nat :| Nearest(c, pos, cur, p);
      assert Nearest(c, pos, After1(c, cur), p);
      OnwardTo(c, pos, cur, p);
      OnwardTo(c, pos, After1(c, cur), p);
    }
  }

  // ----- Bursts -----

  /** The calls `a`, ..., `b - 1` of process `p`. */
  function Burst(p: nat, a: nat, b: nat): seq<Turn>
    decreases b - a
  {
    if a >= b then [] else [Turn(p, a)] + Burst(p, a + 1, b)
  }

  /** Where a turn of `p` stops that is about to make call `a` with count `num`. */
  function StopsAt(c: Config, p: nat, a: nat, num: nat): (b: nat)
    requires Pid(c, p) && a < Length(c)
    ensures a < b <= Length(c)
    decreases Length(c) - a
  {
    var num' := CountAfter(num, a);
    if a + 1 < Length(c) && num' <= ShareAt(c, p, a + 1) then StopsAt(c, p, a + 1, num' + 1) else a + 1
  }

  lemma {:induction false} BurstTurns(c: Config, pos: seq<nat>, p: nat, num: nat)
    requires |pos| == Slots(c) && Pid(c, p) && pos[p] < Length(c)
    ensures var a, b := pos[p], StopsAt(c, p, pos[p], num);
            [Turn(p, a)] + TurnsOf(c, pos[p := a + 1], p, CountAfter(num, a)) ==
            Burst(p, a, b) + Onward(c, pos[p := b], p)
    decreases Length(c) - pos[p]
  {
    hide TurnsOf;
    hide Onward;
    hide Burst;
    var a, num' := pos[p], CountAfter(num, pos[p]);
    var pos1 := pos[p := a + 1];
    var b := StopsAt(c, p, a, num);
    BurstIs(p, a, b);
    if a + 1 < Length(c) && num' <= ShareAt(c, p, a + 1) {
      StaysOn(c, pos1, p, num');
      BurstTurns(c, pos1, p, num' + 1);
      assert pos1[p := b] == pos[p := b];
    } else {
      OverIsOnward(c, pos1, p, num');
      BurstIs(p, b, b);
    }
  }

  lemma BurstIs(p: nat, a: nat, b: nat)
    ensures Burst(p, a, b) == if a >= b then [] else [Turn(p, a)] + Burst(p, a + 1, b)
  {
  }

  lemma StaysOn(c: Config, pos: seq<nat>, cur: nat, num: nat)
    requires |pos| == Slots(c) && Stays(c, pos, cur, num)
    ensures TurnsOf(c, pos, cur, num) ==
            [Turn(cur, pos[cur])] + TurnsOf(c, pos[cur := pos[cur] + 1], cur, CountAfter(num + 1, pos[cur]))
  {
  }

  function AtMost(n: nat, m: int): nat {
    if m < 0 then 0 else if n < m then n else m
  }

  lemma {:induction false} StopsAtShare(c: Config, p: nat, a: nat, num: nat)
    requires Pid(c, p) && 2 <= a < Length(c) && 1 <= num <= AppOf(c, p).share + 1
    ensures StopsAt(c, p, a, num) == AtMost(Length(c), a + AppOf(c, p).share + 2 - num)
    decreases Length(c) - a
  {
    if a + 1 < Length(c) && num <= AppOf(c, p).share {
      StopsAtShare(c, p, a + 1, num + 1);
    }
  }

  /** Where a turn stops: `share + 1` calls further on; the first call of all but process 1 is a turn of
      its own, and the call that sets the share does not count. */
  function Stop(c: Config, p: nat, a: nat, first: bool): nat
    requires Pid(c, p)
  {
    var share := AppOf(c, p).share;
    if a >= Length(c) then a
    else if a == 0 && !first then 1
    else if a < 2 then if share < 0 then 2 else AtMost(Length(c), share + 3)
    else if share < 0 then a
    else AtMost(Length(c), a + share + 1)
  }

  lemma StopIs(c: Config, p: nat, a: nat, first: bool)
    requires Pid(c, p) && a < Length(c) && (first ==> a == 0) && (a >= 2 ==> 0 <= AppOf(c, p).share)
    ensures StopsAt(c, p, a, if first then 0 else 1) == Stop(c, p, a, first)
  {
    if a >= 2 {
      StopsAtShare(c, p, a, 1);
    } else if 0 <= AppOf(c, p).share {
      StopsAtShare(c, p, 2, 1);
    }
  }

  // ----- Laps -----

  /** How many calls process `p` has made after `lap` laps. */
  function Reached(c: Config, p: nat, lap: nat): nat
    requires Pid(c, p)
  {
    if lap == 0 then 0 else Stop(c, p, Reached(c, p, lap - 1), p == 1 && lap == 1)
  }

  /** Lap number `lap` from process `p` on: everybody's burst, in the order of the pids. */
  function Lap(c: Config, lap: nat, p: nat): seq<Turn>
    decreases Slots(c) - p
  {
    if !Pid(c, p) then [] else Burst(p, Reached(c, p, lap), Reached(c, p, lap + 1)) + Lap(c, lap, p + 1)
  }

  function Laps(c: Config, lap: nat, n: nat): seq<Turn>
    decreases n
  {
    if n == 0 then [] else Lap(c, lap, 1) + Laps(c, lap + 1, n - 1)
  }

  /** In lap number `lap`, the processes below `p` have had their burst. */
  ghost predicate InLap(c: Config, pos: seq<nat>, lap: nat, p: nat) {
    && |pos| == Slots(c)
    && forall q: nat | Pid(c, q) && q < |pos| :: pos[q] == Reached(c, q, if q < p then lap + 1 else lap)
  }

  lemma LapBurst(c: Config, pos: seq<nat>, lap: nat, p: nat) returns (pos': seq<nat>)
    requires Pid(c, p) && InLap(c, pos, lap, p) && lap >= 1
    ensures InLap(c, pos', lap, p + 1)
    ensures Onward(c, pos, p - 1) == Burst(p, Reached(c, p, lap), Reached(c, p, lap + 1)) + Onward(c, pos', p)
  {
    hide TurnsOf;
    hide Onward;
    hide Burst;
    var a, b := pos[p], Reached(c, p, lap + 1);
    pos' := pos[p := b];
    if Willing(c, pos, p) {
      WillingBurst(c, pos, p, a);
      assert Reached(c, p, lap + 1) == Stop(c, p, a, false);
    } else {
      ReachedFixed(c, p, lap);
      assert pos' == pos;
      SkipUnwilling(c, pos, p - 1);
      NoBurst(p, a, Onward(c, pos, p));
    }
    hide Reached;
  }

  lemma NoBurst(p: nat, a: nat, rest: seq<Turn>)
    ensures Burst(p, a, a) + rest == rest
  {
  }

  lemma WillingBurst(c: Config, pos: seq<nat>, p: nat, a: nat)
    requires Pid(c, p) && |pos| == Slots(c) && Willing(c, pos, p) && a == pos[p]
    ensures Onward(c, pos, p - 1) == Burst(p, a, Stop(c, p, a, false)) + Onward(c, pos[p := Stop(c, p, a, false)], p)
  {
    assert Nearest(c, pos, p - 1, p);
    hide TurnsOf;
    hide Onward;
    hide Burst;
    OnwardTo(c, pos, p - 1, p);
    BurstTurns(c, pos, p, 1);
    StopIs(c, p, a, false);
  }

  lemma ReachedFixed(c: Config, p: nat, lap: nat)
    requires Pid(c, p) && lap >= 1
    requires var a := Reached(c, p, lap); !(a < Length(c) && 0 <= ShareAt(c, p, a))
    ensures Reached(c, p, lap + 1) == Reached(c, p, lap)
  {
  }

  lemma {:induction false} LapTurns(c: Config, pos: seq<nat>, lap: nat, p: nat) returns (pos': seq<nat>)
    requires 1 <= p <= Slots(c) && InLap(c, pos, lap, p) && lap >= 1
    ensures InLap(c, pos', lap + 1, 1)
    ensures Onward(c, pos, p - 1) == Lap(c, lap, p) + Onward(c, pos', |c.apps|)
    decreases Slots(c) - p
  {
    hide TurnsOf;
    hide Onward;
    if p == Slots(c) {
      pos' := pos;
      assert Lap(c, lap, p) == [];
    } else {
      var pos1 := LapBurst(c, pos, lap, p);
      pos' := LapTurns(c, pos1, lap, p + 1);
      Join(Burst(p, Reached(c, p, lap), Reached(c, p, lap + 1)), Lap(c, lap, p + 1), Onward(c, pos', |c.apps|));
    }
  }

  lemma Join(a: seq<Turn>, b: seq<Turn>, d: seq<Turn>)
    ensures a + (b + d) == (a + b) + d
  {
  }

  lemma BackToFirst(c: Config, pos: seq<nat>)
    requires |pos| == Slots(c)
    ensures Onward(c, pos, |c.apps|) == Onward(c, pos, 0)
  {
    hide Onward;
    SkipUnwilling(c, pos, |c.apps|);
  }

  /** When everybody has finished or set a negative share, nobody runs again. */
  lemma {:induction false} LapsTurns(c: Config, pos: seq<nat>, lap: nat, n: nat)
    requires InLap(c, pos, lap, 1) && lap >= 1 && lap + n >= Length(c)
    ensures Onward(c, pos, 0) == Laps(c, lap, n)
    decreases n
  {
    hide TurnsOf;
    hide Onward;
    hide Lap;
    hide Reached;
    if n == 0 {
      AllReached(c, pos, lap);
    } else {
      var pos' := LapTurns(c, pos, lap, 1);
      BackToFirst(c, pos');
      LapsTurns(c, pos', lap + 1, n - 1);
    }
  }

  lemma {:induction false} ReachedGrows(c: Config, p: nat, lap: nat)
    requires Pid(c, p) && lap >= 1
    ensures var a := Reached(c, p, lap);
            (AppOf(c, p).share < 0 ==> a <= 2) && (a >= AtMost(Length(c), lap) || (a == 2 && AppOf(c, p).share < 0))
  {
    if lap > 1 {
      ReachedGrows(c, p, lap - 1);
    }
  }

  lemma AllReached(c: Config, pos: seq<nat>, lap: nat)
    requires InLap(c, pos, lap, 1) && lap >= Length(c)
    ensures Onward(c, pos, 0) == []
  {
    forall p: nat ensures !Willing(c, pos, p) {
      if Pid(c, p) && p < |pos| {
        ReachedGrows(c, p, lap);
      }
    }
  }

  /** The first lap, in which process 1 is already running and has no count yet. */
  lemma FirstLap(c: Config) returns (pos': seq<nat>)
    requires Pid(c, 1)
    ensures InLap(c, pos', 1, 1) && WholeShare(c) == Lap(c, 0, 1) + Onward(c, pos', 0)
  {
    hide TurnsOf;
    hide Onward;
    var pos := Start(c);
    BurstTurns(c, pos, 1, 0);
    StopIs(c, 1, 0, true);
    assert Reached(c, 1, 0) == 0 && Reached(c, 1, 1) == Stop(c, 1, 0, true);
    var pos1 := pos[1 := Reached(c, 1, 1)];
    pos' := FirstCalls(c, pos1, 2);
    BackToFirst(c, pos');
    Join(Burst(1, 0, Reached(c, 1, 1)), Lap(c, 0, 2), Onward(c, pos', |c.apps|));
  }

  lemma {:induction false} FirstCalls(c: Config, pos: seq<nat>, p: nat) returns (pos': seq<nat>)
    requires 2 <= p <= Slots(c) && InLap(c, pos, 0, p)
    ensures InLap(c, pos', 1, 1)
    ensures Onward(c, pos, p - 1) == Lap(c, 0, p) + Onward(c, pos', |c.apps|)
    decreases Slots(c) - p
  {
    hide TurnsOf;
    hide Onward;
    if p == Slots(c) {
      pos' := pos;
      assert Lap(c, 0, p) == [];
    } else {
      assert pos[p] == 0 && Nearest(c, pos, p - 1, p);
      OnwardTo(c, pos, p - 1, p);
      BurstTurns(c, pos, p, 1);
      StopIs(c, p, 0, false);
      var pos1 := pos[p := 1];
      pos' := FirstCalls(c, pos1, p + 1);
      Join(Burst(p, 0, 1), Lap(c, 0, p + 1), Onward(c, pos', |c.apps|));
    }
  }

  /** The exact order of turns of policy 3, for any number of processes and prints and any shares: laps
      in which everybody in turn takes a burst of `share + 1` calls. */
  lemma ExactShareOrder(c: Config)
    requires Sane(c)
    ensures WholeShare(c) == Laps(c, 0, Length(c))
  {
    var pos := FirstLap(c);
    LapsTurns(c, pos, 1, Length(c) - 1);
  }
}
