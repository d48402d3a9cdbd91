/** When policy 2 prints its priority classes in ascending order, each of them interleaved. */
module ClassShape {
  import opened Applications
  import opened Turns
  import opened Prints

  /** `t` prints the classes of `s` in ascending order of priority number, each as `runs` rounds of
      the class in cyclic order from anywhere. */
  ghost predicate Shaped(c: Config, s: set<nat>, t: seq<nat>)
    requires forall p | p in s :: Pid(c, p)
    decreases |s|
  {
    if s == {} then t == []
    else
      BestClassSmaller(c, s);
      var best := BestClass(c, s);
      exists start: nat, rest: seq<nat> ::
        start < Slots(c) && t == Repeat(Order(Slots(c), start, best), c.runs) + rest && Shaped(c, s - best, rest)
  }

  function Priority(c: Config, p: nat): int
    requires Pid(c, p)
  {
    AppOf(c, p).priority
  }

  /** The negative priorities increase with the pid; equal ones are no harm if everybody prints once. */
  ghost predicate Orderly(c: Config) {
    || c.runs == 0
    || forall p: nat, q: nat | Pid(c, p) && Pid(c, q) && p < q && Priority(c, p) < 0 && Priority(c, q) < 0 ::
         Priority(c, p) < Priority(c, q) || (Priority(c, p) == Priority(c, q) && c.runs == 1)
  }

  function Negative(c: Config): (s: set<nat>)
    ensures forall p: nat :: p in s <==> Pid(c, p) && Priority(c, p) < 0
  {
    set p: nat | 1 <= p < Slots(c) && Pid(c, p) && Priority(c, p) < 0
  }

  lemma AllPidsSplit(c: Config)
    ensures AllPids(c) == Negative(c) + Patient(c)
    ensures forall p | p in AllPids(c) || p in Patient(c) :: Pid(c, p)
  {
    assert forall p: nat :: p in Patient(c) <==> Pid(c, p) && !Eager(c, p);
  }

  // ----- If the negative priorities are orderly -----

  /** The processes of `o` one by one, each to its end. */
  function Serial(o: seq<nat>, k: nat): seq<nat> {
    if o == [] then [] else Repeat([o[0]], k) + Serial(o[1..], k)
  }

  lemma {:induction false} SerialConcat(a: seq<nat>, b: seq<nat>, k: nat)
    ensures Serial(a + b, k) == Serial(a, k) + Serial(b, k)
    decreases |a|
  {
    if a == [] {
      assert a + b == b;
    } else {
      assert (a + b)[0] == a[0] && (a + b)[1..] == a[1..] + b;
      SerialConcat(a[1..], b, k);
    }
  }

  /** One process, or one print each: printing one by one is printing in rounds. */
  lemma {:induction false} SerialIsRepeat(o: seq<nat>, k: nat)
    requires |o| == 1 || k == 1
    ensures Serial(o, k) == Repeat(o, k)
  {
    if |o| == 1 {
      assert Serial(o[1..], k) == [] && o == [o[0]];
    } else {
      SerialOnce(o);
      assert Repeat(o, 1) == o + Repeat(o, 0) == o;
    }
  }

  lemma {:induction false} SerialOnce(o: seq<nat>)
    ensures Serial(o, 1) == o
  {
    if o != [] {
      SerialOnce(o[1..]);
      assert Repeat([o[0]], 1) == [o[0]] + Repeat([o[0]], 0) == [o[0]];
    }
  }

  lemma {:induction false} EagerPrintsSerial(c: Config, p: nat)
    requires p >= 1
    ensures EagerPrints(c, p) == Serial(Ascending(Negative(c), p, Slots(c)), c.runs)
    decreases Slots(c) - p
  {
    if p < Slots(c) {
      EagerPrintsSerial(c, p + 1);
      var rest := Ascending(Negative(c), p + 1, Slots(c));
      if Eager(c, p) {
        assert ([p] + rest)[0] == p && ([p] + rest)[1..] == rest;
      } else {
        assert [] + rest == rest;
      }
    }
  }

  /** A set that lies before another is listed before it. */
  lemma {:induction false} AscendingUnion(s: set<nat>, t: set<nat>, lo: nat, hi: nat)
    requires forall p, q | p in s && q in t :: p < q
    ensures Ascending(s + t, lo, hi) == Ascending(s, lo, hi) + Ascending(t, lo, hi)
    decreases hi - lo
  {
    if lo < hi {
      AscendingUnion(s, t, lo + 1, hi);
      if lo in t {
        AscendingNone(s, lo + 1, hi);
      }
    }
  }

  /** From process N on, cyclic order is ascending order. */
  lemma OrderFromLast(c: Config, s: set<nat>)
    requires Slots(c) > 1 && forall p | p in s :: 1 <= p < Slots(c)
    ensures Order(Slots(c), |c.apps|, s) == Ascending(s, 1, Slots(c))
  {
    assert Ascending(s, Slots(c), Slots(c)) == [];
    assert Ascending(s, 0, Slots(c)) == [] + Ascending(s, 1, Slots(c));
  }

  /** Whoever has a negative priority is better than everybody who has not. */
  lemma BestIsNegative(c: Config, e: set<nat>)
    requires c.algorithm == 2 && e != {} && e <= Negative(c)
    ensures forall p | p in e + Patient(c) :: Pid(c, p)
    ensures BestClass(c, e + Patient(c)) == BestClass(c, e) && BestClass(c, e) <= e
    ensures (e + Patient(c)) - BestClass(c, e) == (e - BestClass(c, e)) + Patient(c)
  {
    assert forall p | p in Patient(c) :: Pid(c, p) && Priority(c, p) >= 0;
    assert forall p | p in e :: Pid(c, p) && Priority(c, p) < 0;
    var a :| a in e;
    assert forall p | p in BestClass(c, e + Patient(c)) :: KeyAt(c, p, 1) <= KeyAt(c, a, 1);
    assert forall p :: p in BestClass(c, e + Patient(c)) <==> p in BestClass(c, e);
  }

  /** In an orderly configuration the best class comes first and is one process or prints once. */
  lemma OrderlyBest(c: Config, e: set<nat>)
    requires c.algorithm == 2 && c.runs > 0 && Orderly(c) && e != {} && e <= Negative(c)
    ensures forall p, q | p in BestClass(c, e) && q in e - BestClass(c, e) :: p < q
    ensures c.runs == 1 || |Ascending(BestClass(c, e), 1, Slots(c))| == 1
  {
    var best := BestClass(c, e);
    forall p, q | p in best && q in e - best ensures p < q {
      var r :| r in e && KeyAt(c, q, 1) > KeyAt(c, r, 1);
      assert Priority(c, p) < Priority(c, q);
    }
    if c.runs > 1 {
      BestClassNonempty(c, e);
      var o := Ascending(best, 1, Slots(c));
      AscendingSorted(best, 1, Slots(c));
      var b :| b in best;
      assert b in o;
      forall p | p in best ensures p == b {
        assert Priority(c, p) == Priority(c, b);
      }
      OneElement(o, b);
    }
  }

  lemma OneElement(o: seq<nat>, b: nat)
    requires b in o && forall p | p in o :: p == b
    requires forall i, j | 0 <= i < j < |o| :: o[i] < o[j]
    ensures |o| == 1
  {
    assert o[0] in o;
    var x := if |o| > 1 then o[1] else b;
    assert x in o;
  }

  lemma ShapedFirst(c: Config, s: set<nat>, start: nat, first: seq<nat>, rest: seq<nat>)
    requires s != {} && (forall p | p in s :: Pid(c, p)) && start < Slots(c)
    requires first == Repeat(Order(Slots(c), start, BestClass(c, s)), c.runs) && Shaped(c, s - BestClass(c, s), rest)
    ensures Shaped(c, s, first + rest)
  {
    hide Repeat;
    hide Order;
    hide BestClass;
  }

  lemma {:induction false} ClassPrintsShaped(c: Config, s: set<nat>, cur: nat)
    requires cur < Slots(c) && forall p | p in s :: Pid(c, p)
    ensures Shaped(c, s, ClassPrints(c, s, cur))
    decreases |s|
  {
    if s != {} {
      BestClassSmaller(c, s);
      BestClassNonempty(c, s);
      var best := BestClass(c, s);
      var o := Order(Slots(c), cur, best);
      OrderCyclic(Slots(c), cur, best);
      hide Order;
      hide BestClass;
      hide Repeat;
      var b :| b in best;
      assert b in o;
      var next := o[|o| - 1];
      assert next in o;
      ClassPrintsShaped(c, s - best, next);
      FirstClass(c, s, cur, o, best);
      hide ClassPrints;
      hide Shaped;
      ShapedFirst(c, s, cur, Repeat(o, c.runs), ClassPrints(c, s - best, next));
    }
  }

  /** The best class goes first. */
  lemma SerialFirst(c: Config, e: set<nat>)
    requires c.algorithm == 2 && c.runs > 0 && Orderly(c) && e != {} && e <= Negative(c)
    ensures var n, best := Slots(c), BestClass(c, e);
            Serial(Ascending(e, 1, n), c.runs) ==
            Repeat(Order(n, |c.apps|, best), c.runs) + Serial(Ascending(e - best, 1, n), c.runs)
  {
    var n, best := Slots(c), BestClass(c, e);
    OrderlyBest(c, e);
    assert best <= e && best + (e - best) == e;
    hide BestClass;
    AscendingUnion(best, e - best, 1, n);
    SerialConcat(Ascending(best, 1, n), Ascending(e - best, 1, n), c.runs);
    SerialIsRepeat(Ascending(best, 1, n), c.runs);
    OrderFromLast(c, best);
    hide Ascending;
    hide Order;
    hide Serial;
    hide Repeat;
  }

  lemma {:induction false} OrderlyShaped(c: Config, e: set<nat>, tail: seq<nat>)
    requires c.algorithm == 2 && c.runs > 0 && Orderly(c) && e <= Negative(c)
    requires (forall p | p in Patient(c) :: Pid(c, p)) && Shaped(c, Patient(c), tail)
    ensures forall p | p in e + Patient(c) :: Pid(c, p)
    ensures Shaped(c, e + Patient(c), Serial(Ascending(e, 1, Slots(c)), c.runs) + tail)
    decreases |e|
  {
    hide Shaped;
    hide Serial;
    hide Ascending;
    hide Orderly;
    if e == {} {
      AscendingNone(e, 1, Slots(c));
      SerialNobody(c.runs);
      assert e + Patient(c) == Patient(c) && [] + tail == tail;
    } else {
      BestIsNegative(c, e);
      BestClassSmaller(c, e);
      hide BestClass;
      hide Patient;
      hide Negative;
      OrderlyShaped(c, e - BestClass(c, e), tail);
      OrderlyStep(c, e, tail);
    }
  }

  lemma SerialNobody(k: nat)
    ensures Serial([], k) == []
  {
  }

  lemma OrderlyStep(c: Config, e: set<nat>, tail: seq<nat>)
    requires c.algorithm == 2 && c.runs > 0 && Orderly(c) && e != {} && e <= Negative(c)
    requires forall p | p in (e - BestClass(c, e)) + Patient(c) || p in e + Patient(c) :: Pid(c, p)
    requires Shaped(c, (e - BestClass(c, e)) + Patient(c),
                    Serial(Ascending(e - BestClass(c, e), 1, Slots(c)), c.runs) + tail)
    ensures Shaped(c, e + Patient(c), Serial(Ascending(e, 1, Slots(c)), c.runs) + tail)
  {
    BestIsNegative(c, e);
    SerialFirst(c, e);
    hide Shaped;
    hide BestClass;
    hide Ascending;
    hide Order;
    hide Serial;
    hide Repeat;
    hide Orderly;
    var n, best := Slots(c), BestClass(c, e);
    var first, rest := Repeat(Order(n, |c.apps|, best), c.runs), Serial(Ascending(e - best, 1, n), c.runs);
    ShapedFirst(c, e + Patient(c), |c.apps|, first, rest + tail);
    Associate(first, rest, tail);
  }

  lemma Associate(a: seq<nat>, b: seq<nat>, c: seq<nat>)
    ensures a + b + c == a + (b + c)
  {
  }

  // ----- If they are not -----

  /** `q` is printed before some print of `p`. */
  ghost predicate Before(t: seq<nat>, q: nat, p: nat) {
    exists i, j :: 0 <= i < j < |t| && t[i] == q && t[j] == p
  }

  lemma BeforeLater(a: seq<nat>, t: seq<nat>, q: nat, p: nat)
    requires Before(t, q, p)
    ensures Before(a + t, q, p)
  {
    var i, j :| 0 <= i < j < |t| && t[i] == q && t[j] == p;
    assert (a + t)[|a| + i] == q && (a + t)[|a| + j] == p;
  }

  lemma BeforeAcross(a: seq<nat>, t: seq<nat>, q: nat, p: nat)
    requires q in a && p in t
    ensures Before(a + t, q, p)
  {
    var i :| 0 <= i < |a| && a[i] == q;
    var j :| 0 <= j < |t| && t[j] == p;
    assert (a + t)[i] == q && (a + t)[|a| + j] == p;
  }

  lemma ShapedSplit(c: Config, s: set<nat>, t: seq<nat>) returns (start: nat, rest: seq<nat>)
    requires s != {} && (forall p | p in s :: Pid(c, p)) && Shaped(c, s, t)
    ensures start < Slots(c) && Shaped(c, s - BestClass(c, s), rest)
    ensures t == Repeat(Order(Slots(c), start, BestClass(c, s)), c.runs) + rest
  {
    BestClassSmaller(c, s);
    var best := BestClass(c, s);
    hide BestClass;
    start, rest :|
      start < Slots(c) && t == Repeat(Order(Slots(c), start, best), c.runs) + rest && Shaped(c, s - best, rest);
  }

  /** Every process of the set is printed. */
  lemma {:induction false} ShapedPrints(c: Config, s: set<nat>, t: seq<nat>, p: nat)
    requires c.runs > 0 && (forall q | q in s :: Pid(c, q)) && Shaped(c, s, t) && p in s
    ensures p in t
    decreases |s|
  {
    BestClassSmaller(c, s);
    var best := BestClass(c, s);
    var start, rest := ShapedSplit(c, s, t);
    hide Shaped;
    if p in best {
      RepeatHas(c, start, best, p, c.runs);
    } else {
      ShapedPrints(c, s - best, rest, p);
    }
  }

  lemma RepeatHas(c: Config, start: nat, best: set<nat>, p: nat, k: nat)
    requires start < Slots(c) && (forall q | q in best :: q < Slots(c)) && p in best && k > 0
    ensures p in Repeat(Order(Slots(c), start, best), k)
  {
    OrderCyclic(Slots(c), start, best);
    var o := Order(Slots(c), start, best);
    assert Repeat(o, k) == o + Repeat(o, k - 1);
  }

  /** A better process, or one of the same class if there are two rounds, is printed before some print
      of `p`. */
  lemma {:induction false} ShapedOrder(c: Config, s: set<nat>, t: seq<nat>, q: nat, p: nat)
    requires c.algorithm == 2 && (forall r | r in s :: Pid(c, r)) && Shaped(c, s, t) && p in s && q in s
    requires c.runs > 0 && (Priority(c, q) < Priority(c, p) || (Priority(c, q) == Priority(c, p) && c.runs > 1))
    ensures Before(t, q, p)
    decreases |s|
  {
    BestClassSmaller(c, s);
    var best := BestClass(c, s);
    var start, rest := ShapedSplit(c, s, t);
    hide Shaped;
    hide Before;
    hide Order;
    if q !in best {
      ShapedOrder(c, s - best, rest, q, p);
      BeforeLater(Repeat(Order(Slots(c), start, best), c.runs), rest, q, p);
    } else if p in best {
      TwoRounds(c, start, best, q, p, c.runs, rest);
    } else {
      RepeatHas(c, start, best, q, c.runs);
      ShapedPrints(c, s - best, rest, p);
      BeforeAcross(Repeat(Order(Slots(c), start, best), c.runs), rest, q, p);
    }
  }

  lemma TwoRounds(c: Config, start: nat, best: set<nat>, q: nat, p: nat, k: nat, rest: seq<nat>)
    requires start < Slots(c) && (forall r | r in best :: r < Slots(c)) && p in best && q in best && k > 1
    ensures Before(Repeat(Order(Slots(c), start, best), k) + rest, q, p)
  {
    var o := Order(Slots(c), start, best);
    OrderCyclic(Slots(c), start, best);
    RepeatHas(c, start, best, p, k - 1);
    BeforeAcross(o, Repeat(o, k - 1) + rest, q, p);
    assert Repeat(o, k) + rest == o + (Repeat(o, k - 1) + rest);
  }

  lemma {:induction false} RepeatOne(p: nat, k: nat)
    ensures forall i | 0 <= i < |Repeat([p], k)| :: Repeat([p], k)[i] == p
  {
    if k > 0 {
      RepeatOne(p, k - 1);
    }
  }

  ghost predicate Sorted(t: seq<nat>, p: nat) {
    (forall i | 0 <= i < |t| :: t[i] >= p) && forall i, j | 0 <= i < j < |t| :: t[i] <= t[j]
  }

  lemma SortedConcat(first: seq<nat>, rest: seq<nat>, p: nat)
    requires (forall i | 0 <= i < |first| :: first[i] == p) && Sorted(rest, p + 1)
    ensures Sorted(first + rest, p)
  {
  }

  /** The eager processes print in ascending order of their pids. */
  lemma {:induction false} EagerPrintsSorted(c: Config, p: nat)
    ensures Sorted(EagerPrints(c, p), p)
    decreases Slots(c) - p
  {
    if Pid(c, p) {
      EagerPrintsSorted(c, p + 1);
      RepeatOne(p, c.runs);
      SortedConcat(if Eager(c, p) then Repeat([p], c.runs) else [], EagerPrints(c, p + 1), p);
    }
  }

  lemma SortedNotBefore(e: seq<nat>, tail: seq<nat>, q: nat, p: nat)
    requires Sorted(e, 1) && p !in tail && p < q
    ensures !Before(e + tail, q, p)
  {
  }

  lemma {:induction false} ClassPrintsMembers(c: Config, s: set<nat>, cur: nat)
    requires cur < Slots(c) && forall p | p in s :: Pid(c, p)
    ensures forall p | p in ClassPrints(c, s, cur) :: p in s
    decreases |s|
  {
    if s != {} {
      BestClassSmaller(c, s);
      BestClassNonempty(c, s);
      var best := BestClass(c, s);
      var o := Order(Slots(c), cur, best);
      OrderCyclic(Slots(c), cur, best);
      hide Order;
      var b :| b in best;
      assert b in o && o[|o| - 1] in o;
      ClassPrintsMembers(c, s - best, o[|o| - 1]);
      FirstClass(c, s, cur, o, best);
      RepeatMembers(o, c.runs);
    }
  }

  lemma {:induction false} RepeatMembers(o: seq<nat>, k: nat)
    ensures forall p | p in Repeat(o, k) :: p in o
  {
    if k > 0 {
      RepeatMembers(o, k - 1);
    }
  }

  /** A process of negative priority is done before a later one starts. */
  lemma EagerNotBefore(c: Config, p: nat, q: nat)
    requires c.algorithm == 2 && p in Negative(c) && q in Negative(c) && p < q
    ensures !Before(ExpectedPrints(c), q, p)
  {
    AllPidsSplit(c);
    EagerPrintsSorted(c, 1);
    ClassPrintsMembers(c, Patient(c), |c.apps|);
    var e, tail := EagerPrints(c, 1), ClassPrints(c, Patient(c), |c.apps|);
    assert ExpectedPrints(c) == e + tail;
    SortedNotBefore(e, tail, q, p);
  }

  /** Policy 2 prints its classes in ascending order of priority number, each of them interleaved,
      exactly if the negative priorities are orderly. */
  lemma ClassesAscendIff(c: Config)
    requires Sane(c) && c.algorithm == 2
    ensures forall p | p in AllPids(c) :: Pid(c, p)
    ensures Shaped(c, AllPids(c), ExpectedPrints(c)) <==> Orderly(c)
  {
    AllPidsSplit(c);
    var n, tail := Slots(c), ClassPrints(c, Patient(c), |c.apps|);
    if c.runs == 0 {
      NoPrints(c, AllPids(c));
      NoEagerPrints(c, 1);
      NoClassPrints(c, Patient(c), |c.apps|);
    } else if Orderly(c) {
      ClassPrintsShaped(c, Patient(c), |c.apps|);
      OrderlyShaped(c, Negative(c), tail);
      EagerPrintsSerial(c, 1);
    } else {
      var p: nat, q: nat :| Pid(c, p) && Pid(c, q) && p < q && Priority(c, p) < 0 && Priority(c, q) < 0
        && !(Priority(c, p) < Priority(c, q) || (Priority(c, p) == Priority(c, q) && c.runs == 1));
      EagerNotBefore(c, p, q);
      if Shaped(c, AllPids(c), ExpectedPrints(c)) {
        ShapedOrder(c, AllPids(c), ExpectedPrints(c), q, p);
      }
    }
  }

  lemma {:induction false} NoPrints(c: Config, s: set<nat>)
    requires c.runs == 0 && forall p | p in s :: Pid(c, p)
    ensures Shaped(c, s, [])
    decreases |s|
  {
    if s != {} {
      BestClassSmaller(c, s);
      NoPrints(c, s - BestClass(c, s));
      assert Repeat(Order(Slots(c), 0, BestClass(c, s)), 0) == [];
      ShapedFirst(c, s, 0, [], []);
    }
  }

  lemma {:induction false} NoEagerPrints(c: Config, p: nat)
    requires c.runs == 0
    ensures EagerPrints(c, p) == []
    decreases Slots(c) - p
  {
    if Pid(c, p) {
      NoEagerPrints(c, p + 1);
    }
  }

  lemma {:induction false} NoClassPrints(c: Config, s: set<nat>, cur: nat)
    requires c.runs == 0 && forall p | p in s :: Pid(c, p)
    ensures ClassPrints(c, s, cur) == []
    decreases |s|
  {
    if s != {} {
      BestClassSmaller(c, s);
      var o := Order(Slots(c), cur, BestClass(c, s));
      NoClassPrints(c, s - BestClass(c, s), if o == [] then cur else o[|o| - 1]);
    }
  }
}
