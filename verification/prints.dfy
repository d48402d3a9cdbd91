/** What the order of turns puts on the screen, and when each process prints and exits. */
module Prints {
  import opened Applications
  import opened Turns

  /** The processes that print, in the order they do. */
  function Printed(c: Config, ts: seq<Turn>): seq<nat> {
    if ts == [] then []
    else (if IsPrint(c, ts[0]) then [ts[0].pid] else []) + Printed(c, ts[1..])
  }

  /** `k` copies of `o`. */
  function Repeat(o: seq<nat>, k: nat): seq<nat> {
    if k == 0 then [] else o + Repeat(o, k - 1)
  }

  lemma {:induction false} PrintedConcat(c: Config, a: seq<Turn>, b: seq<Turn>)
    ensures Printed(c, a + b) == Printed(c, a) + Printed(c, b)
  {
    if a == [] {
      assert a + b == b;
    } else {
      assert (a + b)[1..] == a[1..] + b;
      PrintedConcat(c, a[1..], b);
    }
  }

  lemma PrintedNothing(c: Config)
    ensures Printed(c, []) == []
  {
  }

  lemma {:induction false} PrintedRow(c: Config, o: seq<nat>, a: nat)
    ensures Printed(c, Row(o, a)) == if 3 <= a < 3 + c.runs then o else []
  {
    if o != [] {
      assert Row(o, a)[1..] == Row(o[1..], a);
      PrintedRow(c, o[1..], a);
      assert o == [o[0]] + o[1..];
    }
  }

  /** Print turns among the turns `a`, ..., `Length - 1`. */
  function PrintsLeft(c: Config, a: nat): nat {
    if a <= 3 then c.runs else if a < 3 + c.runs then 3 + c.runs - a else 0
  }

  lemma {:induction false} PrintedRounds(c: Config, o: seq<nat>, a: nat)
    ensures Printed(c, Rounds(o, a, Length(c))) == Repeat(o, PrintsLeft(c, a))
    decreases Length(c) - a
  {
    hide Printed;
    hide Rounds;
    hide Repeat;
    if a < Length(c) {
      PrintedRounds(c, o, a + 1);
      PrintedFirstRow(c, o, a);
      RepeatMore(o, PrintsLeft(c, a));
    } else {
      PrintedNoRow(c, o, a);
    }
  }

  lemma PrintedNoRow(c: Config, o: seq<nat>, a: nat)
    requires a >= Length(c)
    ensures Printed(c, Rounds(o, a, Length(c))) == [] == Repeat(o, PrintsLeft(c, a))
  {
  }

  lemma PrintedFirstRow(c: Config, o: seq<nat>, a: nat)
    requires a < Length(c)
    ensures Printed(c, Rounds(o, a, Length(c))) ==
            (if 3 <= a < 3 + c.runs then o else []) + Printed(c, Rounds(o, a + 1, Length(c)))
  {
    hide Printed;
    hide Row;
    PrintedRow(c, o, a);
    PrintedConcat(c, Row(o, a), Rounds(o, a + 1, Length(c)));
  }

  lemma RepeatMore(o: seq<nat>, k: nat)
    ensures [] + Repeat(o, k) == Repeat(o, k)
    ensures k > 0 ==> Repeat(o, k) == o + Repeat(o, k - 1)
  {
  }

  /** The classes one after the other, best first; inside a class the processes alternate, starting
      in cyclic order after the last process of the class before. */
  function ClassPrints(c: Config, s: set<nat>, cur: nat): seq<nat>
    requires forall p | p in s :: Pid(c, p)
    decreases |s|
  {
    if s == {} then []
    else
      BestClassSmaller(c, s);
      var best := BestClass(c, s);
      var o := Order(Slots(c), cur, best);
      Repeat(o, c.runs) + ClassPrints(c, s - best, if o == [] then cur else o[|o| - 1])
  }

  lemma {:induction false} PrintedClasses(c: Config, s: set<nat>, cur: nat, a: nat)
    requires a <= 3 && forall p | p in s :: Pid(c, p)
    ensures Printed(c, ClassTurns(c, s, cur, a)) == ClassPrints(c, s, cur)
    decreases |s|
  {
    if s != {} {
      BestClassSmaller(c, s);
      var best := BestClass(c, s);
      var o := Order(Slots(c), cur, best);
      var next := if o == [] then cur else o[|o| - 1];
      PrintedClasses(c, s - best, next, a);
      PrintedRounds(c, o, a);
      PrintedConcat(c, Rounds(o, a, Length(c)), ClassTurns(c, s - best, next, a));
    }
  }

  lemma {:induction false} AscendingAll(s: set<nat>, lo: nat, hi: nat)
    requires forall p | lo <= p < hi :: p in s
    ensures |Ascending(s, lo, hi)| == if lo < hi then hi - lo else 0
    ensures forall i | 0 <= i < |Ascending(s, lo, hi)| :: Ascending(s, lo, hi)[i] == lo + i
    decreases hi - lo
  {
    if lo < hi {
      AscendingAll(s, lo + 1, hi);
    }
  }

  lemma {:induction false} AscendingNone(s: set<nat>, lo: nat, hi: nat)
    requires forall p | lo <= p < hi :: p !in s
    ensures Ascending(s, lo, hi) == []
    decreases hi - lo
  {
    if lo < hi {
      AscendingNone(s, lo + 1, hi);
    }
  }

  /** `1, 2, ..., N`. */
  lemma PidsAre(c: Config)
    ensures |Pids(c)| == |c.apps| && forall i | 0 <= i < |c.apps| :: Pids(c)[i] == i + 1
  {
    AscendingAll(AllPids(c), 1, Slots(c));
  }

  /** The processes from `p` on, each printing to its end before the next starts. */
  function OneByOne(c: Config, p: nat): seq<nat>
    decreases Slots(c) - p
  {
    if p >= Slots(c) then [] else Repeat([p], c.runs) + OneByOne(c, p + 1)
  }

  function PidsFrom(c: Config, p: nat): set<nat> {
    set q: nat | 1 <= q < Slots(c) && Pid(c, q) && p <= q
  }

  /** Under policy 1 the best class of the processes from `p` on is `p` alone. */
  lemma LowestIsBest(c: Config, p: nat)
    requires c.algorithm == 1 && Pid(c, p)
    ensures BestClass(c, PidsFrom(c, p)) == {p}
    ensures Order(Slots(c), p - 1, {p}) == [p]
    ensures PidsFrom(c, p) - {p} == PidsFrom(c, p + 1)
  {
    assert p in PidsFrom(c, p);
    AscendingNone({p}, p + 1, Slots(c));
    AscendingNone({p}, 0, p);
  }

  lemma {:induction false} PrintedOneByOne(c: Config, p: nat)
    requires c.algorithm == 1 && 1 <= p <= Slots(c)
    ensures ClassPrints(c, PidsFrom(c, p), p - 1) == OneByOne(c, p)
    decreases Slots(c) - p
  {
    if p < Slots(c) {
      assert p in PidsFrom(c, p);
      LowestIsBest(c, p);
      PrintedOneByOne(c, p + 1);
    } else {
      assert PidsFrom(c, p) == {};
    }
  }

  lemma PrintedRoundRobin(c: Config)
    requires Sane(c) && c.algorithm == 0
    ensures ClassPrints(c, AllPids(c), 0) == Repeat(Pids(c), c.runs)
  {
    var s := AllPids(c);
    assert Pid(c, 1) && 1 in s;
    assert BestClass(c, s) == s;
    PidsCyclic(c);
    assert s - s == {};
  }

  /** The eager processes from `p` on, each printing to its end. */
  function EagerPrints(c: Config, p: nat): seq<nat>
    decreases Slots(c) - p
  {
    if !Pid(c, p) then [] else (if Eager(c, p) then Repeat([p], c.runs) else []) + EagerPrints(c, p + 1)
  }

  lemma {:induction false} PrintedSetUp(c: Config, p: nat)
    ensures Printed(c, SetUp(c, p)) == EagerPrints(c, p)
    decreases Slots(c) - p
  {
    hide Printed;
    hide Rounds;
    hide Row;
    if Pid(c, p) {
      PrintedSetUp(c, p + 1);
      var first := if Eager(c, p) then Rounds([p], 0, Length(c)) else Row([p], 0);
      PrintedConcat(c, first, SetUp(c, p + 1));
      PrintedRounds(c, [p], 0);
      PrintedRow(c, [p], 0);
    } else {
      PrintedNothing(c);
    }
  }

  /** What each policy prints. */
  function ExpectedPrints(c: Config): seq<nat> {
    assert forall p | p in AllPids(c) || p in Patient(c) :: Pid(c, p);
    if c.algorithm == 0 then Repeat(Pids(c), c.runs)
    else if c.algorithm == 1 then OneByOne(c, 1)
    else EagerPrints(c, 1) + ClassPrints(c, Patient(c), |c.apps|)
  }

  ghost predicate Predictable(c: Config) {
    Sane(c) && 0 <= c.algorithm <= 2
  }

  /** For any number of processes and prints and any priorities, policy 0 prints `(1 2 ... N)^R`,
      policy 1 prints `1^R 2^R ... N^R`, and policy 2 prints first the processes with a negative
      priority one by one, then the other classes in ascending order, each interleaved. */
  lemma ExactPrints(c: Config)
    requires Predictable(c)
    ensures Printed(c, Whole(c)) == ExpectedPrints(c)
  {
    ExactOrder(c);
    if c.algorithm == 2 {
      PrintedSetUp(c, 1);
      PrintedConcat(c, SetUp(c, 1), ClassTurns(c, Patient(c), |c.apps|, 1));
      PrintedClasses(c, Patient(c), |c.apps|, 1);
    } else {
      PrintedClasses(c, AllPids(c), 0, 0);
      if c.algorithm == 0 {
        PrintedRoundRobin(c);
      } else {
        assert AllPids(c) == PidsFrom(c, 1);
        PrintedOneByOne(c, 1);
      }
    }
  }

  lemma {:induction false} NobodyEager(c: Config, p: nat)
    requires forall q | Pid(c, q) :: 0 <= AppOf(c, q).priority
    ensures EagerPrints(c, p) == []
    decreases Slots(c) - p
  {
    if Pid(c, p) {
      NobodyEager(c, p + 1);
    }
  }

  /** Without negative priorities policy 2 prints all its classes in ascending order of priority
      number, each interleaved, despite the calls that set them. */
  lemma AscendingClasses(c: Config)
    requires c.algorithm == 2 && forall q | Pid(c, q) :: 0 <= AppOf(c, q).priority
    ensures forall p | p in AllPids(c) :: Pid(c, p)
    ensures ExpectedPrints(c) == ClassPrints(c, AllPids(c), |c.apps|)
  {
    NobodyEager(c, 1);
    assert Patient(c) == AllPids(c);
  }

  /** With negative ones it need not: two processes of priority -1 that print twice do not alternate. */
  lemma NegativeClassesDoNotAlternate(c: Config)
    requires c.algorithm == 2 && |c.apps| == 2 && c.runs == 2
    requires forall q | Pid(c, q) :: AppOf(c, q).priority == -1
    ensures forall p | p in AllPids(c) :: Pid(c, p)
    ensures ExpectedPrints(c) == [1, 1, 2, 2] && ClassPrints(c, AllPids(c), 2) == [1, 2, 1, 2]
  {
    assert forall p: nat :: p in AllPids(c) <==> Pid(c, p);
    assert AllPids(c) == {1, 2};
    assert forall p: nat :: p !in Patient(c);
    assert Patient(c) == {};
    assert EagerPrints(c, 3) == [];
    assert EagerPrints(c, 2) == Repeat([2], 2) + [];
    assert Repeat([1], 1) == [1] && Repeat([2], 1) == [2];
    hide ClassPrints;
    BothPrint(c);
  }

  lemma BothPrint(c: Config)
    requires c.algorithm == 2 && |c.apps| == 2 && AppOf(c, 1).priority == AppOf(c, 2).priority && c.runs == 2
    ensures ClassPrints(c, {1, 2}, 2) == [1, 2, 1, 2]
  {
    assert Repeat([1, 2], 1) == [1, 2] && Repeat([1, 2], 2) == [1, 2, 1, 2];
    assert BestClass(c, {1, 2}) == {1, 2} && {1, 2} - {1, 2} == {};
    AscendingNone({1, 2}, 3, 3);
    calc {
      Ascending({1, 2}, 0, 3);
      Ascending({1, 2}, 1, 3);
      [1] + Ascending({1, 2}, 2, 3);
      [1] + ([2] + Ascending({1, 2}, 3, 3));
      [1, 2];
    }
    assert Order(3, 2, {1, 2}) == [1, 2];
    hide Ascending;
    hide Order;
    hide Repeat;
    FirstClass(c, {1, 2}, 2, [1, 2], {1, 2});
  }

  /** The configuration the four applications are built with prints `(1 3)^R 2^R 4^R` under
      policy 2. */
  lemma AsBuilt(c: Config)
    requires c.algorithm == 2 && |c.apps| == 4
    requires AppOf(c, 1).priority == 1 && AppOf(c, 2).priority == 2
    requires AppOf(c, 3).priority == 1 && AppOf(c, 4).priority == 4
    ensures ExpectedPrints(c) == Repeat([1, 3], c.runs) + Repeat([2], c.runs) + Repeat([4], c.runs)
  {
    AscendingClasses(c);
    var s := AllPids(c);
    assert forall p: nat :: p in s <==> Pid(c, p);
    assert s == {1, 2, 3, 4};
    AsBuiltClasses(c);
  }

  lemma AsBuiltOrders()
    ensures Order(5, 4, {1, 3}) == [1, 3] && Order(5, 3, {2}) == [2] && Order(5, 2, {4}) == [4]
  {
  }

  /** The best class prints first. */
  lemma FirstClass(c: Config, s: set<nat>, cur: nat, o: seq<nat>, best: set<nat>)
    requires s != {} && forall p | p in s :: Pid(c, p)
    requires best == BestClass(c, s) && o == Order(Slots(c), cur, best) && o != []
    ensures ClassPrints(c, s, cur) == Repeat(o, c.runs) + ClassPrints(c, s - best, o[|o| - 1])
  {
    BestClassSmaller(c, s);
    hide Repeat;
    hide Order;
    hide BestClass;
    hide Slots;
    hide Pid;
    assert ClassPrints(c, s, cur) == Repeat(o, c.runs) + ClassPrints(c, s - best, o[|o| - 1]);
  }

  lemma AsBuiltClasses(c: Config)
    requires c.algorithm == 2 && |c.apps| == 4
    requires AppOf(c, 1).priority == 1 && AppOf(c, 2).priority == 2
    requires AppOf(c, 3).priority == 1 && AppOf(c, 4).priority == 4
    ensures ClassPrints(c, {1, 2, 3, 4}, 4) == Repeat([1, 3], c.runs) + Repeat([2], c.runs) + Repeat([4], c.runs)
  {
    hide Ascending;
    hide Order;
    hide Repeat;
    hide BestClass;
    hide ClassPrints;
    AsBuiltBest(c);
    AsBuiltOrders();
    FirstClass(c, {1, 2, 3, 4}, 4, [1, 3], {1, 3});
    FirstClass(c, {2, 4}, 3, [2], {2});
    FirstClass(c, {4}, 2, [4], {4});
    NoClass(c, 4);
  }

  lemma NoClass(c: Config, cur: nat)
    ensures ClassPrints(c, {}, cur) == []
  {
  }

  lemma AsBuiltBest(c: Config)
    requires c.algorithm == 2 && |c.apps| == 4
    requires AppOf(c, 1).priority == 1 && AppOf(c, 2).priority == 2
    requires AppOf(c, 3).priority == 1 && AppOf(c, 4).priority == 4
    ensures BestClass(c, {1, 2, 3, 4}) == {1, 3} && BestClass(c, {2, 4}) == {2} && BestClass(c, {4}) == {4}
    ensures {1, 2, 3, 4} - {1, 3} == {2, 4} && {2, 4} - {2} == {4} && {4} - {4} == {}
  {
  }
}
