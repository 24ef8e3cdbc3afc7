/**
 Choosing a worker, as a function of what the chooser sees: which workers are healthy, how many
 calls each has in flight, and a shared round-robin counter that wraps at 2^64.
 */
module Dispatch {
  import opened Wrappers
  import opened Numbers

  datatype View = View(healthy: seq<bool>, loads: seq<nat>, counter: nat)

  predicate ValidView(v: View)
  {
    |v.healthy| == |v.loads| && v.counter < U64_RANGE
  }

  predicate InRange(pool: seq<nat>, n: nat)
  {
    forall k :: 0 <= k < |pool| ==> pool[k] < n
  }

  /** The positions at which the flag is set, in order. */
  function Where(flags: seq<bool>): (r: seq<nat>)
    ensures InRange(r, |flags|)
  {
    if flags == [] then []
    else
      var n := |flags| - 1;
      Where(flags[..n]) + if flags[n] then [n] else []
  }

  lemma {:induction false} WhereExactly(flags: seq<bool>)
    ensures forall i: nat :: i in Where(flags) <==> i < |flags| && flags[i]
    ensures forall j, k :: 0 <= j < k < |Where(flags)| ==> Where(flags)[j] < Where(flags)[k]
  {
    if flags != [] {
      WhereExactly(flags[..|flags| - 1]);
    }
  }

  function MinLoad(pool: seq<nat>, loads: seq<nat>): (r: nat)
    requires pool != [] && InRange(pool, |loads|)
  {
    if |pool| == 1 then loads[pool[0]]
    else
      var m := MinLoad(pool[1..], loads);
      if loads[pool[0]] < m then loads[pool[0]] else m
  }

  lemma {:induction false} MinLoadIsLeast(pool: seq<nat>, loads: seq<nat>) returns (k: nat)
    requires pool != [] && InRange(pool, |loads|)
    ensures k < |pool| && loads[pool[k]] == MinLoad(pool, loads)
    ensures forall j :: 0 <= j < |pool| ==> MinLoad(pool, loads) <= loads[pool[j]]
  {
    if |pool| == 1 {
      k := 0;
    } else {
      var k' := MinLoadIsLeast(pool[1..], loads);
      k := if loads[pool[0]] < MinLoad(pool[1..], loads) then 0 else k' + 1;
      forall j | 0 <= j < |pool|
        ensures MinLoad(pool, loads) <= loads[pool[j]]
      {
        if j > 0 {
          assert pool[j] == pool[1..][j - 1];
        }
      }
    }
  }

  /** The members of the pool with exactly this load. */
  function WithLoad(pool: seq<nat>, loads: seq<nat>, load: nat): (r: seq<nat>)
    requires InRange(pool, |loads|)
    ensures InRange(r, |loads|) && |r| <= |pool|
  {
    if pool == [] then []
    else (if loads[pool[0]] == load then [pool[0]] else []) + WithLoad(pool[1..], loads, load)
  }

  lemma {:induction false} WithLoadExactly(pool: seq<nat>, loads: seq<nat>, load: nat)
    requires InRange(pool, |loads|)
    ensures forall k :: 0 <= k < |pool| && loads[pool[k]] == load ==> pool[k] in WithLoad(pool, loads, load)
    ensures forall i :: i in WithLoad(pool, loads, load) ==> i in pool && i < |loads| && loads[i] == load
  {
    if pool != [] {
      WithLoadExactly(pool[1..], loads, load);
      assert pool == [pool[0]] + pool[1..];
    }
  }

  lemma SomeoneIsLeast(pool: seq<nat>, loads: seq<nat>)
    requires pool != [] && InRange(pool, |loads|)
    ensures WithLoad(pool, loads, MinLoad(pool, loads)) != []
  {
    var k := MinLoadIsLeast(pool, loads);
    WithLoadExactly(pool, loads, MinLoad(pool, loads));
  }

  /** `fetch_add(1)`. */
  function Bump(counter: nat): (r: nat)
    ensures r < U64_RANGE
  {
    (counter + 1) % U64_RANGE
  }

  /** All indices, for when no worker is healthy. */
  function AllOf(n: nat): (r: seq<nat>)
    ensures |r| == n && forall i :: 0 <= i < n ==> r[i] == i
  {
    seq(n, i requires 0 <= i < n => i)
  }

  /** The candidates a pick rotates over: the least loaded of the healthy, or everyone if none is healthy. */
  function Candidates(v: View): (r: seq<nat>)
    requires ValidView(v)
    ensures InRange(r, |v.healthy|)
    ensures r == [] <==> v.healthy == []
  {
    var healthy := Where(v.healthy);
    if healthy == [] then AllOf(|v.healthy|)
    else
      var least := WithLoad(healthy, v.loads, MinLoad(healthy, v.loads));
      SomeoneIsLeast(healthy, v.loads);
      least
  }

  function Pick(v: View): (r: Option<nat>)
    requires ValidView(v)
    ensures r.Some? ==> r.value < |v.healthy|
    ensures r.None? <==> v.healthy == []
  {
    var c := Candidates(v);
    if c == [] then None else Some(c[v.counter % |c|])
  }

  /** The loads are read twice, and the second reading decides who is least loaded; none may be left. */
  function PickFrom(pool: seq<nat>, first: seq<nat>, second: seq<nat>, counter: nat): (r: Option<nat>)
    requires pool != [] && |first| == |second| && InRange(pool, |first|)
  {
    var least := WithLoad(pool, second, MinLoad(pool, first));
    if least == [] then None else Some(least[counter % |least|])
  }

  /**
   With loads changing between the two readings, the choice exists exactly when some worker's second
   load equals the smallest first one; with loads that rest, it always does.
   */
  lemma PickFromDefined(pool: seq<nat>, first: seq<nat>, second: seq<nat>, counter: nat)
    requires pool != [] && |first| == |second| && InRange(pool, |first|)
    ensures PickFrom(pool, first, second, counter).Some? <==>
            exists k :: 0 <= k < |pool| && second[pool[k]] == MinLoad(pool, first)
    ensures first == second ==> PickFrom(pool, first, second, counter).Some?
  {
    var m := MinLoad(pool, first);
    var least := WithLoad(pool, second, m);
    WithLoadExactly(pool, second, m);
    if least != [] {
      assert least[0] in least;
    }
    var k := MinLoadIsLeast(pool, first);
  }

  // ---------------------------------------------------------------------------------------------
  // Dispatch without completions
  // ---------------------------------------------------------------------------------------------

  function SendOne(v: View): (r: View)
    requires ValidView(v)
    ensures ValidView(r) && r.healthy == v.healthy
  {
    match Pick(v)
    case None => v
    case Some(i) => View(v.healthy, v.loads[i := v.loads[i] + 1], Bump(v.counter))
  }

  function SendMany(v: View, k: nat): (r: View)
    requires ValidView(v)
    ensures ValidView(r) && r.healthy == v.healthy
  {
    if k == 0 then v else SendOne(SendMany(v, k - 1))
  }

  /** How many pool members carry exactly this load. */
  function CountWith(pool: seq<nat>, loads: seq<nat>, load: nat): (r: nat)
    requires InRange(pool, |loads|)
    ensures r <= |pool|
  {
    if pool == [] then 0 else (if loads[pool[0]] == load then 1 else 0) + CountWith(pool[1..], loads, load)
  }

  predicate Distinct(pool: seq<nat>)
  {
    forall j, k :: 0 <= j < k < |pool| ==> pool[j] != pool[k]
  }

  lemma {:induction false} CountUpdate(pool: seq<nat>, loads: seq<nat>, i: nat, x: nat, load: nat)
    requires Distinct(pool) && InRange(pool, |loads|) && i in pool && i < |loads|
    ensures CountWith(pool, loads[i := x], load) + (if loads[i] == load then 1 else 0) ==
            CountWith(pool, loads, load) + (if x == load then 1 else 0)
  {
    assert pool == [pool[0]] + pool[1..];
    if pool[0] == i {
      assert i !in pool[1..];
      CountElsewhere(pool[1..], loads, i, x, load);
    } else {
      CountUpdate(pool[1..], loads, i, x, load);
    }
  }

  lemma {:induction false} CountElsewhere(pool: seq<nat>, loads: seq<nat>, i: nat, x: nat, load: nat)
    requires InRange(pool, |loads|) && i !in pool && i < |loads|
    ensures CountWith(pool, loads[i := x], load) == CountWith(pool, loads, load)
  {
    if pool != [] {
      CountElsewhere(pool[1..], loads, i, x, load);
    }
  }

  lemma {:induction false} CountAll(pool: seq<nat>, loads: seq<nat>, load: nat)
    requires InRange(pool, |loads|)
    ensures CountWith(pool, loads, load) == |pool| <==> forall k :: 0 <= k < |pool| ==> loads[pool[k]] == load
    ensures CountWith(pool, loads, load) == 0 <==> forall k :: 0 <= k < |pool| ==> loads[pool[k]] != load
  {
    if pool != [] {
      var rest := pool[1..];
      CountAll(rest, loads, load);
      assert forall k :: 0 <= k < |rest| ==> rest[k] == pool[k + 1];
      assert forall k :: 0 < k < |pool| ==> pool[k] == rest[k - 1];
    }
  }

  /** The pool is at `level`, except that `ahead` of its members are one above. */
  predicate Level(pool: seq<nat>, loads: seq<nat>, level: nat, ahead: nat)
  {
    && InRange(pool, |loads|)
    && (forall k :: 0 <= k < |pool| ==> loads[pool[k]] == level || loads[pool[k]] == level + 1)
    && ahead < |pool| && CountWith(pool, loads, level + 1) == ahead
  }

  lemma PickIsLowest(v: View, level: nat, ahead: nat)
    requires ValidView(v) && Level(Where(v.healthy), v.loads, level, ahead)
    ensures Pick(v).Some? && Pick(v).value in Where(v.healthy) && v.loads[Pick(v).value] == level
  {
    var pool := Where(v.healthy);
    CountAll(pool, v.loads, level + 1);
    var k := MinLoadIsLeast(pool, v.loads);
    WithLoadExactly(pool, v.loads, MinLoad(pool, v.loads));
    var c := Candidates(v);
    assert c[v.counter % |c|] in c;
  }

  lemma SendOneKeepsLevel(v: View, level: nat, ahead: nat)
    requires ValidView(v) && Level(Where(v.healthy), v.loads, level, ahead)
    ensures var pool := Where(v.healthy);
            var v' := SendOne(v);
            if ahead + 1 < |pool| then Level(pool, v'.loads, level, ahead + 1) else Level(pool, v'.loads, level + 1, 0)
    ensures forall i: nat :: i < |v.loads| && i !in Where(v.healthy) ==> SendOne(v).loads[i] == v.loads[i]
  {
    hide Where, Candidates, Pick;
    var pool := Where(v.healthy);
    PickIsLowest(v, level, ahead);
    WhereExactly(v.healthy);
    var i := Pick(v).value;
    var loads' := v.loads[i := level + 1];
    assert SendOne(v).loads == loads';
    CountUpdate(pool, v.loads, i, level + 1, level + 1);
    if ahead + 1 == |pool| {
      CountAll(pool, loads', level + 1);
      CountAll(pool, loads', level + 2);
    }
  }

  datatype Turn = Turn(rounds: nat, ahead: nat)

  /** Full rounds over `n` workers in `k` dispatches, and how many the current round has served. */
  function TurnAfter(k: nat, n: nat): (r: Turn)
    requires n > 0
    ensures r.ahead < n
  {
    if k == 0 then Turn(0, 0)
    else
      var t := TurnAfter(k - 1, n);
      if t.ahead + 1 < n then Turn(t.rounds, t.ahead + 1) else Turn(t.rounds + 1, 0)
  }

  lemma {:induction false} TurnIsDivision(k: nat, n: nat)
    requires n > 0
    ensures TurnAfter(k, n) == Turn(k / n, k % n)
  {
    if k > 0 {
      TurnIsDivision(k - 1, n);
      NextDivision(k - 1, n);
    } else {
      assert 0 / n == 0 && 0 % n == 0;
    }
  }

  lemma NextDivision(k: nat, n: nat)
    requires n > 0
    ensures k % n + 1 < n ==> (k + 1) / n == k / n && (k + 1) % n == k % n + 1
    ensures k % n + 1 == n ==> (k + 1) / n == k / n + 1 && (k + 1) % n == 0
  {
    var q, r := k / n, k % n;
    assert k == n * q + r;
    if r + 1 < n {
      DivisionIsUnique(k + 1, n, q, r + 1);
    } else {
      assert n * (q + 1) == n * q + n;
      DivisionIsUnique(k + 1, n, q + 1, 0);
    }
  }

  lemma MultipleIsFar(n: int, d: int)
    requires n >= 0
    ensures d >= 1 ==> n * d >= n
    ensures d <= -1 ==> n * d <= -n
  {
  }

  lemma DivisionIsUnique(k: nat, n: nat, q: nat, r: nat)
    requires r < n && k == n * q + r
    ensures k / n == q && k % n == r
  {
    assert n * (k / n) - n * q == n * (k / n - q);
    MultipleIsFar(n, k / n - q);
  }

  function Quotient(k: nat, n: nat): (q: nat)
    requires n > 0
  {
    k / n
  }

  lemma {:induction false} LevelAfter(v: View, base: nat, k: nat)
    requires ValidView(v) && Where(v.healthy) != []
    requires forall j :: 0 <= j < |Where(v.healthy)| ==> v.loads[Where(v.healthy)[j]] == base
    ensures var t := TurnAfter(k, |Where(v.healthy)|);
            Level(Where(v.healthy), SendMany(v, k).loads, base + t.rounds, t.ahead)
    ensures forall i: nat :: i < |v.loads| && i !in Where(v.healthy) ==> SendMany(v, k).loads[i] == v.loads[i]
  {
    hide Where, SendOne, Level;
    if k == 0 {
      LevelAtStart(v, base);
    } else {
      LevelAfter(v, base, k - 1);
      var t := TurnAfter(k - 1, |Where(v.healthy)|);
      SendOneKeepsLevel(SendMany(v, k - 1), base + t.rounds, t.ahead);
    }
  }

  lemma LevelAtStart(v: View, base: nat)
    requires ValidView(v) && Where(v.healthy) != []
    requires forall j :: 0 <= j < |Where(v.healthy)| ==> v.loads[Where(v.healthy)[j]] == base
    ensures Level(Where(v.healthy), v.loads, base, 0)
  {
    CountAll(Where(v.healthy), v.loads, base + 1);
  }

  /**
   Dispatch without completions stays even: starting from equal loads on the healthy workers, after
   `k` dispatches each of the `n` of them holds `k / n` more, or one more than that, the latter on
   exactly `k % n` of them; the other workers are left alone. The counter's value plays no part.
   */
  lemma DispatchIsEven(v: View, base: nat, k: nat)
    requires ValidView(v) && Where(v.healthy) != []
    requires forall j :: 0 <= j < |Where(v.healthy)| ==> v.loads[Where(v.healthy)[j]] == base
    ensures var n := |Where(v.healthy)|;
            Level(Where(v.healthy), SendMany(v, k).loads, base + Quotient(k, n), k % n)
    ensures forall i: nat :: i < |v.loads| && i !in Where(v.healthy) ==> SendMany(v, k).loads[i] == v.loads[i]
  {
    hide Where, SendMany, Level;
    LevelAfter(v, base, k);
    TurnIsDivision(k, |Where(v.healthy)|);
  }

  // ---------------------------------------------------------------------------------------------
  // Rotation when each call ends before the next pick
  // ---------------------------------------------------------------------------------------------

  /** The workers chosen by `k` picks when every call has ended, and so left the loads alone, before the next. */
  function SerialPicks(v: View, k: nat): (r: seq<nat>)
    requires ValidView(v) && v.healthy != []
    ensures |r| == k
    decreases k
  {
    if k == 0 then [] else [Pick(v).value] + SerialPicks(v.(counter := Bump(v.counter)), k - 1)
  }

  /** The place among `n` candidates to which the counter, `j` picks on, points. */
  function Slot(counter: nat, j: nat, range: nat, n: nat): (r: nat)
    requires range > 0 && n > 0
    ensures r < n
  {
    (counter + j) % range % n
  }

  lemma {:induction false} SerialPickAt(v: View, k: nat, j: nat)
    requires ValidView(v) && v.healthy != [] && j < k
    ensures var c := Candidates(v);
            c != [] && SerialPicks(v, k)[j] == c[Slot(v.counter, j, U64_RANGE, |c|)]
    decreases k
  {
    hide *;
    PickIsSlot(v);
    SerialPicksUnfold(v, k);
    var next := v.(counter := Bump(v.counter));
    if j > 0 {
      CandidatesIgnoreCounter(v, next.counter);
      SerialPickAt(next, k - 1, j - 1);
      BumpMovesSlot(v.counter, j, |Candidates(v)|);
    }
  }

  lemma SerialPicksUnfold(v: View, k: nat)
    requires ValidView(v) && v.healthy != [] && k > 0
    ensures var next := v.(counter := Bump(v.counter));
            ValidView(next) && SerialPicks(v, k) == [Pick(v).value] + SerialPicks(next, k - 1)
  {
  }

  lemma PickIsSlot(v: View)
    requires ValidView(v) && v.healthy != []
    ensures var c := Candidates(v); c != [] && Pick(v) == Some(c[Slot(v.counter, 0, U64_RANGE, |c|)])
  {
    hide Candidates;
    WrapOnce(v.counter, U64_RANGE);
  }

  lemma CandidatesIgnoreCounter(v: View, counter: nat)
    requires ValidView(v) && counter < U64_RANGE
    ensures Candidates(v.(counter := counter)) == Candidates(v)
  {
  }

  lemma BumpMovesSlot(counter: nat, j: nat, n: nat)
    requires n > 0 && j > 0
    ensures Slot(Bump(counter), j - 1, U64_RANGE, n) == Slot(counter, j, U64_RANGE, n)
  {
    ReduceTwice(counter + 1, j - 1, U64_RANGE);
  }

  lemma ReduceTwice(a: nat, b: nat, range: nat)
    requires range > 0
    ensures (a % range + b) % range == (a + b) % range
  {
    var q, y := a / range, a % range + b;
    assert range * (q + y / range) == range * q + range * (y / range);
    DivisionIsUnique(a + b, range, q + y / range, y % range);
  }

  lemma WrapOnce(x: nat, range: nat)
    requires range > 0 && x < range + range
    ensures x % range == if x < range then x else x - range
  {
    DivisionIsUnique(x, range, if x < range then 0 else 1, if x < range then x else x - range);
  }

  /** While the counter does not wrap, or wraps at a multiple of `n`, it might as well not wrap at all. */
  predicate KeepsStride(counter: nat, range: nat, n: nat)
    requires n > 0
  {
    counter + n <= range || range % n == 0
  }

  lemma SlotWithStride(counter: nat, j: nat, range: nat, n: nat)
    requires counter < range && j < n && KeepsStride(counter, range, n)
    ensures Slot(counter, j, range, n) == (counter + j) % n
  {
    if counter + n <= range {
      WrapOnce(counter + j, range);
    } else {
      SizeAtMost(range, n);
      WrapOnce(counter + j, range);
      if counter + j >= range {
        ShiftByMultiple(counter + j - range, range, n);
      }
    }
  }

  lemma SizeAtMost(range: nat, n: nat)
    requires n > 0 && range > 0 && range % n == 0
    ensures n <= range
  {
    if range < n {
      DivisionIsUnique(range, n, 0, range);
    }
  }

  lemma ShiftByMultiple(x: nat, range: nat, n: nat)
    requires n > 0 && range % n == 0
    ensures (x + range) % n == x % n
  {
    var a, b := x / n, range / n;
    assert n * (a + b) == n * a + n * b;
    DivisionIsUnique(x + range, n, a + b, x % n);
  }

  lemma ShiftLessThanRound(x: nat, d: nat, n: nat)
    requires d < n
    ensures (x + d) % n == if x % n + d < n then x % n + d else x % n + d - n
  {
    ShiftWithin(x + d, n, x / n, x % n + d);
  }

  lemma ShiftWithin(y: nat, n: nat, q: nat, r: nat)
    requires n > 0 && r < n + n && y == n * q + r
    ensures y % n == if r < n then r else r - n
  {
    if r < n {
      DivisionIsUnique(y, n, q, r);
    } else {
      assert n * (q + 1) == n * q + n;
      DivisionIsUnique(y, n, q + 1, r - n);
    }
  }

  ghost predicate Reached(counter: nat, range: nat, n: nat, i: nat)
    requires range > 0 && n > 0
  {
    exists j: nat :: j < n && Slot(counter, j, range, n) == i
  }

  lemma StrideVisitsAll(counter: nat, range: nat, n: nat)
    requires n > 0 && counter < range && KeepsStride(counter, range, n)
    ensures forall j, k :: 0 <= j < k < n ==> Slot(counter, j, range, n) != Slot(counter, k, range, n)
    ensures forall i :: 0 <= i < n ==> Reached(counter, range, n, i)
  {
    hide *;
    forall j, k | 0 <= j < k < n
      ensures Slot(counter, j, range, n) != Slot(counter, k, range, n)
    {
      SlotsDiffer(counter, range, n, j, k);
    }
    forall i | 0 <= i < n
      ensures Reached(counter, range, n, i)
    {
      SlotIsReached(counter, range, n, i);
    }
  }

  lemma SlotsDiffer(counter: nat, range: nat, n: nat, j: nat, k: nat)
    requires n > 0 && counter < range && KeepsStride(counter, range, n) && j < k < n
    ensures Slot(counter, j, range, n) != Slot(counter, k, range, n)
  {
    hide Slot, KeepsStride;
    SlotWithStride(counter, j, range, n);
    SlotWithStride(counter, k, range, n);
    ShiftLessThanRound(counter + j, k - j, n);
    assert counter + j + (k - j) == counter + k;
  }

  lemma SlotIsReached(counter: nat, range: nat, n: nat, i: nat)
    requires n > 0 && counter < range && KeepsStride(counter, range, n) && i < n
    ensures Reached(counter, range, n, i)
  {
    hide Slot, KeepsStride;
    var r := counter % n;
    var j := if i >= r then i - r else i + n - r;
    SlotWithStride(counter, j, range, n);
    ShiftLessThanRound(counter, j, n);
  }

  /** Otherwise two of the `n` picks meet, on either side of the wrap. */
  lemma BrokenStrideRepeats(counter: nat, range: nat, n: nat)
    requires n > 0 && counter < range && !KeepsStride(counter, range, n)
    ensures exists j, k :: 0 <= j < k < n && Slot(counter, j, range, n) == Slot(counter, k, range, n)
  {
    var t, wrap := range % n, range - counter;
    Remainder(range, n);
    if wrap >= t {
      SlotBefore(counter, wrap - t, range, n, 0);
      SlotAfter(counter, wrap, range, n);
    } else {
      SlotBefore(counter, 0, range, n, t - wrap);
      SlotAfter(counter, t, range, n);
    }
  }

  lemma Remainder(range: nat, n: nat)
    requires n > 0
    ensures range % n <= range && range % n < n
    ensures range % n == range - n * Quotient(range, n)
  {
    assert n * (range / n) >= 0;
  }

  lemma SlotBefore(counter: nat, j: nat, range: nat, n: nat, x: nat)
    requires n > 0 && counter + j < range && x < n && counter + j + (range % n - x) == range
    ensures Slot(counter, j, range, n) == x
  {
    Remainder(range, n);
    WrapOnce(counter + j, range);
    DivisionIsUnique(counter + j, n, Quotient(range, n), x);
  }

  lemma SlotAfter(counter: nat, j: nat, range: nat, n: nat)
    requires n > 0 && counter < range <= counter + j && j <= range && counter + j - range < n
    ensures Slot(counter, j, range, n) == counter + j - range
  {
    WrapOnce(counter + j, range);
    DivisionIsUnique(counter + j - range, n, 0, counter + j - range);
  }

  /** A run of picks visits each candidate exactly once. */
  ghost predicate VisitsEachOnce(picks: seq<nat>, candidates: seq<nat>)
  {
    Distinct(picks) && |picks| == |candidates| && forall i :: i in candidates <==> i in picks
  }

  /**
   With each call over before the next pick, as many consecutive picks as there are candidates visit
   each of them exactly once if, and only if, the shared counter does not wrap on the way or wraps at
   a multiple of their number.
   */
  lemma RotationVisitsEach(v: View)
    requires ValidView(v) && v.healthy != []
    ensures var c := Candidates(v);
            c != [] && (VisitsEachOnce(SerialPicks(v, |c|), c) <==> KeepsStride(v.counter, U64_RANGE, |c|))
  {
    hide Candidates, Slot, SerialPicks, KeepsStride;
    var c := Candidates(v);
    var n := |c|;
    var picks := SerialPicks(v, n);
    CandidatesAreDistinct(v);
    forall j | 0 <= j < n
      ensures picks[j] == c[Slot(v.counter, j, U64_RANGE, n)]
    {
      SerialPickAt(v, n, j);
    }
    if KeepsStride(v.counter, U64_RANGE, n) {
      StrideVisitsAll(v.counter, U64_RANGE, n);
      forall i | i in c
        ensures i in picks
      {
        var k :| 0 <= k < n && c[k] == i;
        assert Reached(v.counter, U64_RANGE, n, k);
        var j: nat :| j < n && Slot(v.counter, j, U64_RANGE, n) == k;
        assert picks[j] == i;
      }
    } else {
      BrokenStrideRepeats(v.counter, U64_RANGE, n);
      var j, k :| 0 <= j < k < n && Slot(v.counter, j, U64_RANGE, n) == Slot(v.counter, k, U64_RANGE, n);
      assert picks[j] == picks[k];
    }
  }

  lemma {:induction false} WithLoadKeepsOrder(pool: seq<nat>, loads: seq<nat>, load: nat)
    requires InRange(pool, |loads|) && Distinct(pool)
    ensures Distinct(WithLoad(pool, loads, load))
  {
    if pool != [] {
      WithLoadKeepsOrder(pool[1..], loads, load);
      WithLoadExactly(pool[1..], loads, load);
      assert pool[0] !in pool[1..];
      var rest := WithLoad(pool[1..], loads, load);
      assert forall k :: 0 <= k < |rest| ==> rest[k] in rest;
    }
  }

  lemma CandidatesAreDistinct(v: View)
    requires ValidView(v) && v.healthy != []
    ensures Distinct(Candidates(v)) && Candidates(v) != []
  {
    var healthy := Where(v.healthy);
    WhereExactly(v.healthy);
    if healthy != [] {
      WithLoadKeepsOrder(healthy, v.loads, MinLoad(healthy, v.loads));
    }
  }

  lemma {:induction false} WithLoadOfAll(pool: seq<nat>, loads: seq<nat>, load: nat)
    requires InRange(pool, |loads|) && forall k :: 0 <= k < |pool| ==> loads[pool[k]] == load
    ensures WithLoad(pool, loads, load) == pool
  {
    if pool != [] {
      WithLoadOfAll(pool[1..], loads, load);
      assert pool == [pool[0]] + pool[1..];
    }
  }

  predicate EvenlyLoaded(v: View)
    requires ValidView(v)
  {
    forall j, k :: 0 <= j < k < |v.healthy| && v.healthy[j] && v.healthy[k] ==> v.loads[j] == v.loads[k]
  }

  /** With equal loads, every healthy worker is a candidate. */
  lemma EvenLoadsLeaveAll(v: View)
    requires ValidView(v) && Where(v.healthy) != [] && EvenlyLoaded(v)
    ensures Candidates(v) == Where(v.healthy)
  {
    var pool := Where(v.healthy);
    WhereExactly(v.healthy);
    assert forall k :: 0 <= k < |pool| ==> pool[k] in pool;
    var k := MinLoadIsLeast(pool, v.loads);
    WithLoadOfAll(pool, v.loads, MinLoad(pool, v.loads));
  }

  /**
   Who the candidates are: with no healthy worker, all of them; otherwise exactly the healthy workers
   that no healthy worker undercuts.
   */
  lemma CandidatesAre(v: View)
    requires ValidView(v)
    ensures Where(v.healthy) == [] ==> Candidates(v) == AllOf(|v.healthy|)
    ensures Where(v.healthy) != [] ==> forall i: nat :: i in Candidates(v) <==>
            i < |v.healthy| && v.healthy[i] &&
            forall j :: 0 <= j < |v.healthy| && v.healthy[j] ==> v.loads[i] <= v.loads[j]
  {
    var pool := Where(v.healthy);
    WhereExactly(v.healthy);
    assert forall k :: 0 <= k < |pool| ==> pool[k] in pool;
    if pool != [] {
      var m := MinLoad(pool, v.loads);
      var k := MinLoadIsLeast(pool, v.loads);
      WithLoadExactly(pool, v.loads, m);
      assert pool[k] in pool && v.loads[pool[k]] == m;
      forall j | 0 <= j < |v.healthy| && v.healthy[j]
        ensures m <= v.loads[j]
      {
        assert j in pool;
      }
      forall i: nat | i in pool && v.loads[i] == m
        ensures i in Candidates(v)
      {
        var p :| 0 <= p < |pool| && pool[p] == i;
      }
    }
  }

  // ---------------------------------------------------------------------------------------------
  // Whose turn it is
  // ---------------------------------------------------------------------------------------------

  predicate Increasing(s: seq<nat>)
  {
    forall j, k :: 0 <= j < k < |s| ==> s[j] < s[k]
  }

  lemma {:induction false} WithLoadIncreases(pool: seq<nat>, loads: seq<nat>, load: nat)
    requires InRange(pool, |loads|) && Increasing(pool)
    ensures Increasing(WithLoad(pool, loads, load))
  {
    if pool != [] {
      WithLoadIncreases(pool[1..], loads, load);
      WithLoadExactly(pool[1..], loads, load);
      var rest := WithLoad(pool[1..], loads, load);
      assert forall k :: 0 <= k < |rest| ==> rest[k] in rest && rest[k] in pool[1..];
    }
  }

  lemma CandidatesIncrease(v: View)
    requires ValidView(v)
    ensures Increasing(Candidates(v))
  {
    WhereExactly(v.healthy);
    var healthy := Where(v.healthy);
    if healthy != [] {
      WithLoadIncreases(healthy, v.loads, MinLoad(healthy, v.loads));
    }
  }

  /** May be picked: a healthy worker that none undercuts, or any worker if none is healthy. */
  predicate Eligible(v: View, i: nat)
    requires ValidView(v) && i < |v.healthy|
  {
    if forall k :: 0 <= k < |v.healthy| ==> !v.healthy[k] then true
    else v.healthy[i] && forall k :: 0 <= k < |v.healthy| && v.healthy[k] ==> v.loads[i] <= v.loads[k]
  }

  /** How many of the first `n` workers may be picked. */
  function EligibleBelow(v: View, n: nat): (r: nat)
    requires ValidView(v) && n <= |v.healthy|
  {
    if n == 0 then 0 else EligibleBelow(v, n - 1) + if Eligible(v, n - 1) then 1 else 0
  }

  lemma CandidatesAreEligible(v: View)
    requires ValidView(v)
    ensures forall i: nat :: i in Candidates(v) <==> i < |v.healthy| && Eligible(v, i)
  {
    hide Candidates, Where;
    WhereExactly(v.healthy);
    CandidatesAre(v);
    if Where(v.healthy) == [] {
      forall k | 0 <= k < |v.healthy|
        ensures !v.healthy[k]
      {
        assert k !in Where(v.healthy);
      }
      InAllOf(|v.healthy|);
    } else {
      var h := Where(v.healthy)[0];
      assert h in Where(v.healthy) && v.healthy[h];
    }
  }

  lemma InAllOf(n: nat)
    ensures forall i: nat :: i in AllOf(n) <==> i < n
  {
    var all := AllOf(n);
    forall i: nat
      ensures i in all <==> i < n
    {
      if i < n {
        assert all[i] == i;
      }
      if i in all {
        var k :| 0 <= k < n && all[k] == i;
      }
    }
  }

  lemma {:induction false} RankOfCandidate(v: View, c: seq<nat>, n: nat, p: nat)
    requires ValidView(v) && n <= |v.healthy| && Increasing(c) && p <= |c|
    requires forall i: nat :: i in c <==> i < |v.healthy| && Eligible(v, i)
    requires (p < |c| ==> n <= c[p]) && (p > 0 ==> c[p - 1] < n)
    ensures EligibleBelow(v, n) == p
    decreases n
  {
    hide Eligible;
    if n > 0 {
      if p > 0 && c[p - 1] == n - 1 {
        assert c[p - 1] in c;
        RankOfCandidate(v, c, n - 1, p - 1);
      } else {
        forall k | 0 <= k < |c|
          ensures c[k] != n - 1
        {
        }
        RankOfCandidate(v, c, n - 1, p);
      }
    }
  }

  /** The pick is the eligible worker whose turn it is: before it stand as many as the counter modulo their number. */
  lemma PickTakesTurns(v: View, i: nat)
    requires ValidView(v) && v.healthy != []
    ensures Pick(v) == Some(i) <==>
            && i < |v.healthy| && Eligible(v, i)
            && EligibleBelow(v, |v.healthy|) > 0
            && EligibleBelow(v, i) == v.counter % EligibleBelow(v, |v.healthy|)
  {
    hide Candidates, Eligible;
    var c := Candidates(v);
    CandidatesIncrease(v);
    CandidatesAreEligible(v);
    assert forall k :: 0 <= k < |c| ==> c[k] in c;
    RankOfCandidate(v, c, |v.healthy|, |c|);
    var p := v.counter % |c|;
    RankOfCandidate(v, c, c[p], p);
    if i < |v.healthy| && Eligible(v, i) {
      assert i in c;
      var k :| 0 <= k < |c| && c[k] == i;
      RankOfCandidate(v, c, i, k);
    }
  }
}
