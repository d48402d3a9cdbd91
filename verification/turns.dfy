/** The order in which the applications take turns when nothing but their own system calls
    reschedules: what policies 0, 1 and 2 make of it, worked out to an explicit sequence. */
module Turns {
  import opened Scheduling
  import opened Applications

  /** Process `pid` makes its system call number `pos`: three set-up calls, one yield for each
      print, and the exit. */
  datatype Turn = Turn(pid: nat, pos: nat)

  /** How many turns every process takes. */
  function Length(c: Config): nat {
    c.runs + 4
  }

  predicate IsPrint(c: Config, t: Turn) {
    3 <= t.pos < 3 + c.runs
  }

  predicate Live(c: Config, pos: seq<nat>, p: int) {
    Pid(c, p) && p < |pos| && pos[p] < Length(c)
  }

  /** What the policy minimises when process `p` has taken `a` turns. */
  function KeyAt(c: Config, p: nat, a: nat): int
    requires Pid(c, p)
  {
    if c.algorithm == 0 then 0
    else if c.algorithm == 1 then p
    else if a == 0 then 0
    else AppOf(c, p).priority
  }

  /** Policies 0 and 1 never change what they minimise. */
  predicate StaticKeys(c: Config) {
    c.algorithm == 0 || c.algorithm == 1
  }

  function Slots(c: Config): nat {
    |c.apps| + 1
  }

  ghost predicate Chosen(c: Config, pos: seq<nat>, cur: nat, p: nat) {
    && Live(c, pos, p)
    && forall q: nat | Live(c, pos, q) ::
         && KeyAt(c, p, pos[p]) <= KeyAt(c, q, pos[q])
         && (KeyAt(c, p, pos[p]) == KeyAt(c, q, pos[q]) ==> Dist(Slots(c), cur, p) <= Dist(Slots(c), cur, q))
  }

  lemma {:induction false} ChosenExists(c: Config, pos: seq<nat>, cur: nat, m: nat) returns (p: nat)
    requires exists q: nat :: q < m && Live(c, pos, q)
    ensures p < m && Live(c, pos, p)
    ensures forall q: nat | q < m && Live(c, pos, q) ::
         && KeyAt(c, p, pos[p]) <= KeyAt(c, q, pos[q])
         && (KeyAt(c, p, pos[p]) == KeyAt(c, q, pos[q]) ==> Dist(Slots(c), cur, p) <= Dist(Slots(c), cur, q))
  {
    if exists q: nat :: q < m - 1 && Live(c, pos, q) {
      p := ChosenExists(c, pos, cur, m - 1);
      if Live(c, pos, m - 1) {
        var kp, km := KeyAt(c, p, pos[p]), KeyAt(c, m - 1, pos[m - 1]);
        if km < kp || (km == kp && Dist(Slots(c), cur, m - 1) < Dist(Slots(c), cur, p)) {
          p := m - 1;
        }
      }
    } else {
      p := m - 1;
    }
  }

  ghost predicate AnyLive(c: Config, pos: seq<nat>) {
    exists q: nat :: Live(c, pos, q)
  }

  lemma AnyChosen(c: Config, pos: seq<nat>, cur: nat)
    requires AnyLive(c, pos)
    ensures exists p: nat :: Chosen(c, pos, cur, p)
  {
    var p := ChosenExists(c, pos, cur, |pos|);
    assert Chosen(c, pos, cur, p);
  }

  ghost function Next(c: Config, pos: seq<nat>, cur: nat): (p: nat)
    requires AnyLive(c, pos)
    ensures Chosen(c, pos, cur, p)
  {
    AnyChosen(c, pos, cur);
    var p: nat :| Chosen(c, pos, cur, p);
    p
  }

  /** Turns left to the processes up to `p`. */
  function Left(c: Config, pos: seq<nat>, p: nat): nat
    requires p < |pos|
  {
    if p == 0 then 0 else Left(c, pos, p - 1) + if pos[p] < Length(c) then Length(c) - pos[p] else 0
  }

  lemma {:induction false} LeftDrops(c: Config, pos: seq<nat>, q: nat, p: nat)
    requires 1 <= q < |pos| && p < |pos| && pos[q] < Length(c)
    ensures Left(c, pos[q := pos[q] + 1], p) == Left(c, pos, p) - if q <= p then 1 else 0
  {
    if p > 0 {
      LeftDrops(c, pos, q, p - 1);
    }
  }

  /** All the turns taken from the moment `schedule` is called by process `cur`, when each process
      has already taken `pos` turns. */
  ghost function TurnsFrom(c: Config, pos: seq<nat>, cur: nat): seq<Turn>
    requires |pos| == Slots(c)
    decreases Left(c, pos, |c.apps|)
  {
    if !AnyLive(c, pos) then []
    else
      var p := Next(c, pos, cur);
      LeftDrops(c, pos, p, |c.apps|);
      [Turn(p, pos[p])] + TurnsFrom(c, pos[p := pos[p] + 1], p)
  }

  lemma TurnsUnfold(c: Config, pos: seq<nat>, cur: nat, p: nat)
    requires |pos| == Slots(c) && cur < Slots(c) && Chosen(c, pos, cur, p)
    ensures p < |pos|
    ensures TurnsFrom(c, pos, cur) == [Turn(p, pos[p])] + TurnsFrom(c, pos[p := pos[p] + 1], p)
  {
  }

  // ----- Cyclic order -----

  /** The sequence lists distinct slots in the cyclic order that starts after `cur`. */
  ghost predicate Cyclic(n: nat, cur: nat, o: seq<nat>) {
    && cur < n
    && (forall i | 0 <= i < |o| :: o[i] < n)
    && forall i, j | 0 <= i < j < |o| :: Dist(n, cur, o[i]) < Dist(n, cur, o[j])
  }

  /** Starting after any of its members, the rest still come in cyclic order and before the members
      already passed. */
  lemma CyclicFrom(n: nat, cur: nat, o: seq<nat>, j: nat, i: nat, i': nat)
    requires Cyclic(n, cur, o) && j < |o| && i < |o| && j < i' < |o| && (i <= j || i' < i)
    ensures Dist(n, o[j], o[i']) < Dist(n, o[j], o[i])
  {
  }

  lemma CyclicRotates(n: nat, cur: nat, o: seq<nat>)
    requires Cyclic(n, cur, o) && o != []
    ensures Cyclic(n, o[|o| - 1], o)
  {
  }

  // ----- One round of a class -----

  function Row(o: seq<nat>, a: nat): (r: seq<Turn>)
    ensures |r| == |o| && forall i | 0 <= i < |o| :: r[i] == Turn(o[i], a)
  {
    seq(|o|, i requires 0 <= i < |o| => Turn(o[i], a))
  }

  /** The rows of turns `a`, ..., `b - 1`. */
  function Rounds(o: seq<nat>, a: nat, b: nat): seq<Turn>
    decreases b - a
  {
    if a >= b then [] else Row(o, a) + Rounds(o, a + 1, b)
  }

  /** The first `j` members of `o` have taken turn `a`, the others are about to. */
  ghost predicate MidRow(c: Config, pos: seq<nat>, o: seq<nat>, a: nat, j: nat) {
    && |pos| == Slots(c) && j <= |o|
    && (forall i | 0 <= i < |o| :: Pid(c, o[i]) && pos[o[i]] == if i < j then a + 1 else a)
  }

  /** Members of `o` share the least key while they take turn `a`. */
  ghost predicate Leading(c: Config, pos: seq<nat>, o: seq<nat>, a: nat, key: int) {
    && (forall i | 0 <= i < |o| :: Pid(c, o[i]) && KeyAt(c, o[i], a) == key && key <= KeyAt(c, o[i], a + 1))
    && forall q: nat | Live(c, pos, q) && q !in o :: q < |pos| && key < KeyAt(c, q, pos[q])
  }

  lemma NextInRow(c: Config, pos: seq<nat>, start: nat, o: seq<nat>, a: nat, j: nat, key: int)
    requires Cyclic(Slots(c), start, o) && MidRow(c, pos, o, a, j) && j < |o| && a < Length(c)
    requires Leading(c, pos, o, a, key)
    ensures Chosen(c, pos, if j == 0 then start else o[j - 1], o[j])
  {
    var cur := if j == 0 then start else o[j - 1];
    forall q: nat | Live(c, pos, q)
      ensures key <= KeyAt(c, q, pos[q])
      ensures key == KeyAt(c, q, pos[q]) ==> Dist(Slots(c), cur, o[j]) <= Dist(Slots(c), cur, q)
    {
      if q in o {
        NotBefore(c, pos, start, o, a, j, key, q);
      }
    }
  }

  /** No member of the row comes before the one whose turn it is. */
  lemma NotBefore(c: Config, pos: seq<nat>, start: nat, o: seq<nat>, a: nat, j: nat, key: int, q: nat)
    requires Cyclic(Slots(c), start, o) && MidRow(c, pos, o, a, j) && j < |o| && a < Length(c)
    requires Leading(c, pos, o, a, key) && q in o
    ensures Pid(c, q) && q < |pos| && key <= KeyAt(c, q, pos[q])
    ensures key == KeyAt(c, q, pos[q]) ==>
              var cur := if j == 0 then start else o[j - 1];
              Dist(Slots(c), cur, o[j]) <= Dist(Slots(c), cur, q)
  {
    hide Dist;
    var i :| 0 <= i < |o| && o[i] == q;
    if j > 0 && i != j {
      CyclicFrom(Slots(c), start, o, j - 1, i, j);
    }
  }

  /** Taking the next turn of a row. */
  lemma TakeTurn(c: Config, pos: seq<nat>, start: nat, o: seq<nat>, a: nat, j: nat, key: int)
    requires Cyclic(Slots(c), start, o) && MidRow(c, pos, o, a, j) && j < |o| && a < Length(c)
    requires Leading(c, pos, o, a, key)
    ensures TurnsFrom(c, pos, if j == 0 then start else o[j - 1])
         == [Turn(o[j], a)] + TurnsFrom(c, pos[o[j] := a + 1], o[j])
  {
    hide TurnsFrom;
    hide Leading;
    var cur := if j == 0 then start else o[j - 1];
    NextInRow(c, pos, start, o, a, j, key);
    TurnsUnfold(c, pos, cur, o[j]);
  }

  lemma TurnTaken(c: Config, pos: seq<nat>, start: nat, o: seq<nat>, a: nat, j: nat, key: int)
    requires Cyclic(Slots(c), start, o) && MidRow(c, pos, o, a, j) && j < |o| && a < Length(c)
    requires Leading(c, pos, o, a, key)
    ensures MidRow(c, pos[o[j] := a + 1], o, a, j + 1) && Leading(c, pos[o[j] := a + 1], o, a, key)
  {
  }

  lemma PrependTurn(o: seq<nat>, a: nat, j: nat, now: seq<Turn>, rest: seq<Turn>)
    requires j < |o| && now == Row(o[j + 1..], a) + rest
    ensures [Turn(o[j], a)] + now == Row(o[j..], a) + rest
  {
  }

  /** From the middle of a row, its remaining turns are taken in order. */
  lemma {:induction false} FinishRow(c: Config, pos: seq<nat>, start: nat, o: seq<nat>, a: nat, j: nat, key: int)
    returns (pos': seq<nat>)
    requires Cyclic(Slots(c), start, o) && MidRow(c, pos, o, a, j) && a < Length(c)
    requires Leading(c, pos, o, a, key)
    ensures MidRow(c, pos', o, a, |o|)
    ensures forall q: nat | q < |pos| && q !in o :: pos'[q] == pos[q]
    ensures TurnsFrom(c, pos, if j == 0 then start else o[j - 1]) ==
            Row(o[j..], a) + TurnsFrom(c, pos', if o == [] then start else o[|o| - 1])
    decreases |o| - j
  {
    hide TurnsFrom;
    hide Leading;
    hide Cyclic;
    if j == |o| {
      pos' := pos;
      assert Row(o[j..], a) == [];
    } else {
      var p := o[j];
      var pos1 := pos[p := a + 1];
      TurnTaken(c, pos, start, o, a, j, key);
      pos' := FinishRow(c, pos1, start, o, a, j + 1, key);
      assert TurnsFrom(c, pos, if j == 0 then start else o[j - 1])
          == Row(o[j..], a) + TurnsFrom(c, pos', o[|o| - 1])
      by {
        TakeTurn(c, pos, start, o, a, j, key);
        PrependTurn(o, a, j, TurnsFrom(c, pos1, p), TurnsFrom(c, pos', o[|o| - 1]));
      }
      assert forall q: nat | q < |pos| && q !in o :: q != p && pos'[q] == pos1[q];
    }
  }

  /** Every member of the class keeps the same key for good. */
  ghost predicate FixedKey(c: Config, o: seq<nat>, key: int) {
    forall i | 0 <= i < |o| :: Pid(c, o[i]) && KeyAt(c, o[i], 1) == key
  }

  ghost predicate OthersWorse(c: Config, pos: seq<nat>, o: seq<nat>, key: int) {
    forall q: nat | Live(c, pos, q) && q !in o :: q < |pos| && key < KeyAt(c, q, pos[q])
  }

  lemma FixedKeyLeads(c: Config, pos: seq<nat>, o: seq<nat>, a: nat, key: int)
    requires FixedKey(c, o, key) && OthersWorse(c, pos, o, key) && (a >= 1 || StaticKeys(c))
    ensures Leading(c, pos, o, a, key)
  {
  }

  lemma OthersStayWorse(c: Config, pos: seq<nat>, pos': seq<nat>, o: seq<nat>, key: int)
    requires OthersWorse(c, pos, o, key) && |pos'| == |pos|
    requires forall q: nat | q < |pos| && q !in o :: pos'[q] == pos[q]
    ensures OthersWorse(c, pos', o, key)
  {
  }

  /** One whole row of such a class. */
  lemma ClassRow(c: Config, pos: seq<nat>, cur: nat, o: seq<nat>, a: nat, key: int) returns (pos1: seq<nat>)
    requires Cyclic(Slots(c), cur, o) && o != [] && MidRow(c, pos, o, a, 0) && a < Length(c)
    requires FixedKey(c, o, key) && OthersWorse(c, pos, o, key) && (a >= 1 || StaticKeys(c))
    ensures Cyclic(Slots(c), o[|o| - 1], o) && MidRow(c, pos1, o, a + 1, 0) && OthersWorse(c, pos1, o, key)
    ensures forall q: nat | q < |pos| && q !in o :: pos1[q] == pos[q]
    ensures TurnsFrom(c, pos, cur) == Row(o, a) + TurnsFrom(c, pos1, o[|o| - 1])
  {
    FixedKeyLeads(c, pos, o, a, key);
    pos1 := FinishRow(c, pos, cur, o, a, 0, key);
    assert o[0..] == o;
    CyclicRotates(Slots(c), cur, o);
    OthersStayWorse(c, pos, pos1, o, key);
  }

  /** A class whose keys no longer change takes all its remaining turns, row by row. */
  lemma {:induction false} FinishClass(c: Config, pos: seq<nat>, cur: nat, o: seq<nat>, a: nat, key: int)
    returns (pos': seq<nat>)
    requires Cyclic(Slots(c), cur, o) && o != [] && MidRow(c, pos, o, a, 0) && a <= Length(c)
    requires FixedKey(c, o, key) && OthersWorse(c, pos, o, key) && (a >= 1 || StaticKeys(c))
    ensures MidRow(c, pos', o, Length(c), 0)
    ensures forall q: nat | q < |pos| && q !in o :: pos'[q] == pos[q]
    ensures TurnsFrom(c, pos, cur) ==
            Rounds(o, a, Length(c)) + TurnsFrom(c, pos', if a < Length(c) then o[|o| - 1] else cur)
    decreases Length(c) - a
  {
    hide TurnsFrom;
    if a == Length(c) {
      pos' := pos;
    } else {
      var pos1 := ClassRow(c, pos, cur, o, a, key);
      pos' := FinishClass(c, pos1, o[|o| - 1], o, a + 1, key);
      assert Rounds(o, a, Length(c)) == Row(o, a) + Rounds(o, a + 1, Length(c));
    }
  }

  // ----- All the classes -----

  /** The members of `s` in `[lo, hi)`, ascending. */
  function Ascending(s: set<nat>, lo: nat, hi: nat): seq<nat>
    decreases hi - lo
  {
    if lo >= hi then [] else (if lo in s then [lo] else []) + Ascending(s, lo + 1, hi)
  }

  /** The members of `s` in cyclic order, starting after `cur`. */
  function Order(n: nat, cur: nat, s: set<nat>): seq<nat> {
    Ascending(s, cur + 1, n) + Ascending(s, 0, cur + 1)
  }

  /** `r` lists exactly the members of `s` in `[lo, hi)`, in ascending order. */
  ghost predicate Lists(r: seq<nat>, s: set<nat>, lo: nat, hi: nat) {
    && (forall i | 0 <= i < |r| :: r[i] in s && lo <= r[i] < hi)
    && (forall i, j | 0 <= i < j < |r| :: r[i] < r[j])
    && (forall p | p in s && lo <= p < hi :: p in r)
  }

  lemma PrependLists(rest: seq<nat>, s: set<nat>, lo: nat, hi: nat)
    requires Lists(rest, s, lo + 1, hi) && lo in s && lo < hi
    ensures Lists([lo] + rest, s, lo, hi)
  {
  }

  lemma {:induction false} AscendingSorted(s: set<nat>, lo: nat, hi: nat)
    ensures Lists(Ascending(s, lo, hi), s, lo, hi)
    decreases hi - lo
  {
    if lo < hi {
      AscendingSorted(s, lo + 1, hi);
      var rest := Ascending(s, lo + 1, hi);
      if lo in s {
        assert Ascending(s, lo, hi) == [lo] + rest;
        hide Ascending;
        PrependLists(rest, s, lo, hi);
      } else {
        assert Ascending(s, lo, hi) == rest;
      }
    }
  }

  lemma OrderCyclic(n: nat, cur: nat, s: set<nat>)
    requires cur < n && forall p | p in s :: p < n
    ensures Cyclic(n, cur, Order(n, cur, s))
    ensures forall p :: p in Order(n, cur, s) <==> p in s
  {
    AscendingSorted(s, cur + 1, n);
    AscendingSorted(s, 0, cur + 1);
    var above, below := Ascending(s, cur + 1, n), Ascending(s, 0, cur + 1);
    assert Order(n, cur, s) == above + below;
    hide Ascending;
    hide Order;
    ListsCyclic(above, below, n, cur, s);
    ListsMembers(above, below, n, cur, s);
    hide Lists;
  }

  lemma ListsMembers(above: seq<nat>, below: seq<nat>, n: nat, cur: nat, s: set<nat>)
    requires Lists(above, s, cur + 1, n) && Lists(below, s, 0, cur + 1) && forall p | p in s :: p < n
    ensures forall p :: p in above + below <==> p in s
  {
  }

  lemma ListsCyclic(above: seq<nat>, below: seq<nat>, n: nat, cur: nat, s: set<nat>)
    requires Lists(above, s, cur + 1, n) && Lists(below, s, 0, cur + 1) && cur < n
    ensures Cyclic(n, cur, above + below)
  {
  }

  /** The best class of `s`: its members with the least assigned key. */
  function BestClass(c: Config, s: set<nat>): set<nat>
    requires forall p | p in s :: Pid(c, p)
  {
    set p | p in s && forall q | q in s :: KeyAt(c, p, 1) <= KeyAt(c, q, 1)
  }

  lemma {:induction false} BestClassNonempty(c: Config, s: set<nat>)
    requires s != {} && forall p | p in s :: Pid(c, p)
    ensures BestClass(c, s) != {}
    decreases |s|
  {
    var p :| p in s;
    var rest := s - {p};
    if rest == {} {
      assert s == {p};
      assert p in BestClass(c, s);
    } else {
      BestClassNonempty(c, rest);
      var b :| b in BestClass(c, rest);
      assert forall q | q in s :: q == p || q in rest;
      assert (if KeyAt(c, p, 1) <= KeyAt(c, b, 1) then p else b) in BestClass(c, s);
    }
  }

  /** The classes of `s` one after the other, best first, each starting in cyclic order after the
      last process of the class before and taking its turns `a`, `a + 1`, ... round robin. */
  function ClassTurns(c: Config, s: set<nat>, cur: nat, a: nat): seq<Turn>
    requires forall p | p in s :: Pid(c, p)
    decreases |s|
  {
    if s == {} then []
    else
      var best := BestClass(c, s);
      BestClassNonempty(c, s);
      BestClassSmaller(c, s);
      var o := Order(Slots(c), cur, best);
      Rounds(o, a, Length(c)) + ClassTurns(c, s - best, if o == [] then cur else o[|o| - 1], a)
  }

  lemma BestClassSmaller(c: Config, s: set<nat>)
    requires s != {} && forall p | p in s :: Pid(c, p)
    ensures |s - BestClass(c, s)| < |s|
  {
    BestClassNonempty(c, s);
    var best := BestClass(c, s);
    assert s == (s - best) + best;
    assert |s| == |s - best| + |best|;
  }

  /** The live processes are those of `s`, all about to take turn `a`. */
  ghost predicate Level(c: Config, pos: seq<nat>, s: set<nat>, a: nat) {
    && |pos| == Slots(c)
    && (forall p | p in s :: Pid(c, p) && pos[p] == a)
    && forall q: nat | Live(c, pos, q) :: q in s
  }

  /** The best class of a level, listed in cyclic order, is ready to run. */
  lemma ClassReady(c: Config, pos: seq<nat>, s: set<nat>, cur: nat, a: nat) returns (o: seq<nat>, key: int)
    requires Level(c, pos, s, a) && cur < Slots(c) && s != {}
    requires a >= 1 || StaticKeys(c)
    ensures o == Order(Slots(c), cur, BestClass(c, s)) && o != []
    ensures forall p :: p in o <==> p in BestClass(c, s)
    ensures Cyclic(Slots(c), cur, o) && MidRow(c, pos, o, a, 0)
    ensures FixedKey(c, o, key) && OthersWorse(c, pos, o, key)
  {
    var best := BestClass(c, s);
    BestClassNonempty(c, s);
    o := Order(Slots(c), cur, best);
    OrderCyclic(Slots(c), cur, best);
    var b :| b in best;
    assert b in o;
    key := KeyAt(c, b, 1);
    forall i | 0 <= i < |o| ensures o[i] in best && KeyAt(c, o[i], 1) == key {
      assert o[i] in o;
    }
    forall q: nat | Live(c, pos, q) && q !in o ensures q < |pos| && key < KeyAt(c, q, pos[q]) {
      assert q in s && q !in best;
      var r :| r in s && KeyAt(c, q, 1) > KeyAt(c, r, 1);
      assert key <= KeyAt(c, r, 1);
      assert pos[q] == a && KeyAt(c, q, a) == KeyAt(c, q, 1);
    }
  }

  /** Once keys are fixed, the classes run one after the other. */
  lemma {:induction false} RunClasses(c: Config, pos: seq<nat>, s: set<nat>, cur: nat, a: nat)
    requires Level(c, pos, s, a) && cur < Slots(c) && a < Length(c)
    requires a >= 1 || StaticKeys(c)
    ensures TurnsFrom(c, pos, cur) == ClassTurns(c, s, cur, a)
    decreases |s|
  {
    hide TurnsFrom;
    hide ClassTurns;
    hide Rounds;
    hide Order;
    hide BestClass;
    if s == {} {
      NothingLeft(c, pos, cur, a);
    } else {
      BestClassSmaller(c, s);
      var rest := s - BestClass(c, s);
      var o, key := ClassReady(c, pos, s, cur, a);
      var pos' := FinishClass(c, pos, cur, o, a, key);
      RestLevel(c, pos, pos', s, o, a);
      RunClasses(c, pos', rest, o[|o| - 1], a);
      FirstTurns(c, s, cur, a);
    }
  }

  lemma NothingLeft(c: Config, pos: seq<nat>, cur: nat, a: nat)
    requires Level(c, pos, {}, a)
    ensures TurnsFrom(c, pos, cur) == [] == ClassTurns(c, {}, cur, a)
  {
    assert !AnyLive(c, pos);
  }

  /** When the best class has finished, the rest is a level still. */
  lemma RestLevel(c: Config, pos: seq<nat>, pos': seq<nat>, s: set<nat>, o: seq<nat>, a: nat)
    requires Level(c, pos, s, a) && (forall p :: p in o <==> p in BestClass(c, s))
    requires MidRow(c, pos', o, Length(c), 0) && forall q: nat | q < |pos| && q !in o :: pos'[q] == pos[q]
    ensures Level(c, pos', s - BestClass(c, s), a)
  {
    hide BestClass;
    assert forall i | 0 <= i < |o| :: !Live(c, pos', o[i]);
    forall q: nat | Live(c, pos', q) ensures q in s - BestClass(c, s) {
      assert q !in o;
      assert Live(c, pos, q);
    }
  }

  /** The best class comes first. */
  lemma FirstTurns(c: Config, s: set<nat>, cur: nat, a: nat)
    requires s != {} && forall p | p in s :: Pid(c, p)
    ensures var best := BestClass(c, s);
            var o := Order(Slots(c), cur, best);
            ClassTurns(c, s, cur, a) ==
            Rounds(o, a, Length(c)) + ClassTurns(c, s - best, if o == [] then cur else o[|o| - 1], a)
  {
    BestClassSmaller(c, s);
    hide Rounds;
    hide Order;
    hide BestClass;
    hide Slots;
    hide Pid;
  }

  // ----- The whole order -----

  function AllPids(c: Config): set<nat> {
    set p: nat | 1 <= p < Slots(c) && Pid(c, p)
  }

  function Pids(c: Config): seq<nat> {
    Ascending(AllPids(c), 1, Slots(c))
  }

  /** No turns taken yet; slot 0 never takes any. */
  function Start(c: Config): seq<nat> {
    seq(Slots(c), _ => 0)
  }

  /** The turns of a whole run.  `start` runs process 1, just as `schedule` called from slot 0
      would. */
  ghost function Whole(c: Config): seq<Turn> {
    TurnsFrom(c, Start(c), 0)
  }

  /** Under policy 2 a process that gives itself a negative priority outranks everybody who has not
      made that call yet. */
  predicate Eager(c: Config, p: nat)
    requires Pid(c, p)
  {
    AppOf(c, p).priority < 0
  }

  function Patient(c: Config): set<nat> {
    set p: nat | 1 <= p < Slots(c) && Pid(c, p) && !Eager(c, p)
  }

  /** Policy 2 while priorities are being set: the processes from `p` on make their first call one
      after the other, and an eager one goes on to its end at once. */
  function SetUp(c: Config, p: nat): seq<Turn>
    decreases Slots(c) - p
  {
    if !Pid(c, p) then []
    else (if Eager(c, p) then Rounds([p], 0, Length(c)) else Row([p], 0)) + SetUp(c, p + 1)
  }

  /** What the policies make of it. */
  function Expected(c: Config): seq<Turn> {
    assert forall p | p in AllPids(c) || p in Patient(c) :: Pid(c, p);
    if c.algorithm == 2 then SetUp(c, 1) + ClassTurns(c, Patient(c), |c.apps|, 1)
    else ClassTurns(c, AllPids(c), 0, 0)
  }

  lemma PidsCyclic(c: Config)
    ensures Pids(c) == Order(Slots(c), 0, AllPids(c))
    ensures Cyclic(Slots(c), 0, Pids(c)) && forall p :: p in Pids(c) <==> p in AllPids(c)
  {
    OrderCyclic(Slots(c), 0, AllPids(c));
    assert Ascending(AllPids(c), 1, 1) == [];
    assert Ascending(AllPids(c), 0, 1) == [] + Ascending(AllPids(c), 1, 1) == [];
  }

  /** The processes below `p` have set their priority, and the eager ones have finished. */
  ghost predicate PartlySetUp(c: Config, pos: seq<nat>, p: nat) {
    && |pos| == Slots(c)
    && forall q: nat | Pid(c, q) && q < |pos| :: pos[q] == if q >= p then 0 else if Eager(c, q) then Length(c) else 1
  }

  /** The next first call is process `p`'s, whatever the priorities. */
  lemma SetUpTurn(c: Config, pos: seq<nat>, p: nat)
    requires c.algorithm == 2 && Pid(c, p) && PartlySetUp(c, pos, p)
    ensures TurnsFrom(c, pos, p - 1) == Row([p], 0) + TurnsFrom(c, pos[p := 1], p)
  {
    hide TurnsFrom;
    forall q: nat | Live(c, pos, q)
      ensures 0 <= KeyAt(c, q, pos[q]) && Dist(Slots(c), p - 1, p) <= Dist(Slots(c), p - 1, q)
    {
    }
    assert Chosen(c, pos, p - 1, p);
    TurnsUnfold(c, pos, p - 1, p);
    assert Row([p], 0) == [Turn(p, 0)];
  }

  /** An eager process's remaining turns follow at once. */
  lemma EagerTurns(c: Config, pos: seq<nat>, p: nat) returns (pos': seq<nat>)
    requires c.algorithm == 2 && Pid(c, p) && Eager(c, p) && PartlySetUp(c, pos, p)
    ensures PartlySetUp(c, pos', p + 1)
    ensures TurnsFrom(c, pos[p := 1], p) == Rounds([p], 1, Length(c)) + TurnsFrom(c, pos', p)
  {
    hide TurnsFrom;
    var pos1 := pos[p := 1];
    assert MidRow(c, pos1, [p], 1, 0);
    pos' := FinishClass(c, pos1, p, [p], 1, AppOf(c, p).priority);
    assert [p][0] in [p] && pos'[[p][0]] == Length(c);
    forall q: nat | Pid(c, q) && q != p ensures pos'[q] == pos[q] {
      assert q !in [p];
    }
  }

  /** Once every priority is set, the patient processes run class by class. */
  lemma SetUpDone(c: Config, pos: seq<nat>)
    requires c.algorithm == 2 && PartlySetUp(c, pos, Slots(c))
    ensures forall q | q in Patient(c) :: Pid(c, q)
    ensures TurnsFrom(c, pos, |c.apps|) == ClassTurns(c, Patient(c), |c.apps|, 1)
  {
    hide TurnsFrom;
    hide ClassTurns;
    RunClasses(c, pos, Patient(c), |c.apps|, 1);
  }

  lemma SetUpNext(c: Config, pos: seq<nat>, p: nat) returns (pos': seq<nat>)
    requires c.algorithm == 2 && Pid(c, p) && PartlySetUp(c, pos, p)
    ensures PartlySetUp(c, pos', p + 1) && |pos| == |pos'| == Slots(c)
    ensures TurnsFrom(c, pos, p - 1) ==
            (if Eager(c, p) then Rounds([p], 0, Length(c)) else Row([p], 0)) + TurnsFrom(c, pos', p)
  {
    hide TurnsFrom;
    SetUpTurn(c, pos, p);
    if Eager(c, p) {
      pos' := EagerTurns(c, pos, p);
      assert Rounds([p], 0, Length(c)) == Row([p], 0) + Rounds([p], 1, Length(c));
      hide Rounds;
      hide Row;
    } else {
      pos' := pos[p := 1];
    }
  }

  lemma {:induction false} SetUpAll(c: Config, pos: seq<nat>, p: nat)
    requires c.algorithm == 2 && 1 <= p <= Slots(c) && PartlySetUp(c, pos, p) && |pos| == Slots(c)
    ensures forall q | q in Patient(c) :: Pid(c, q)
    ensures TurnsFrom(c, pos, p - 1) == SetUp(c, p) + ClassTurns(c, Patient(c), |c.apps|, 1)
    decreases Slots(c) - p
  {
    hide TurnsFrom;
    hide ClassTurns;
    hide PartlySetUp;
    hide Rounds;
    hide Row;
    if p == Slots(c) {
      SetUpDone(c, pos);
      assert SetUp(c, p) == [];
    } else {
      var pos' := SetUpNext(c, pos, p);
      SetUpAll(c, pos', p + 1);
      var first := if Eager(c, p) then Rounds([p], 0, Length(c)) else Row([p], 0);
      assert SetUp(c, p) == first + SetUp(c, p + 1);
    }
  }

  /** The exact order of turns of policies 0, 1 and 2, for any number of processes and prints and any
      priorities. */
  lemma ExactOrder(c: Config)
    requires Sane(c) && 0 <= c.algorithm <= 2
    ensures Whole(c) == Expected(c)
  {
    hide TurnsFrom;
    hide ClassTurns;
    if StaticKeys(c) {
      RunClasses(c, Start(c), AllPids(c), 0, 0);
    } else {
      SetUpAll(c, Start(c), 1);
    }
  }
}
