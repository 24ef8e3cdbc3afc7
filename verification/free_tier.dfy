/**
 The free tier's daily allowance of characters per key. Checking it, which also resets it on a new
 day, and using it up are two separate statements, so requests can come between each other.
 */
module FreeTier {
  import opened Wrappers

  const FREE_TIER_DAILY_LIMIT: nat := 300
  const FREE_TIER_LOGGED_IN_LIMIT: nat := 1000

  datatype Usage = Usage(charsUsed: int, lastReset: int)

  datatype LimitExceeded = LimitExceeded(remaining: int, limit: int)

  /** The upsert that every reading starts with: a new row, or a reset if the day has changed. */
  function Touched(row: Option<Usage>, today: int): (r: Usage)
  {
    match row
    case None => Usage(0, today)
    case Some(u) => Usage(if u.lastReset < today then 0 else u.charsUsed, today)
  }

  class FreeTierUsage {
    var usage: map<string, Usage>

    constructor ()
      ensures usage == map[]
    {
      usage := map[];
    }

    function Row(key: string): (r: Option<Usage>)
      reads this
    {
      if key in usage then Some(usage[key]) else None
    }

    /** The check admits exactly what still fits; the reset stays, whatever it answers. */
    method CheckLimitWith(key: string, charsNeeded: int, limit: int, today: int)
      returns (r: Result<int, LimitExceeded>)
      modifies this
      ensures usage == old(usage)[key := Touched(old(Row(key)), today)]
      ensures r.Ok? <==> usage[key].charsUsed + charsNeeded <= limit
      ensures var remaining := limit - usage[key].charsUsed;
              r == if r.Ok? then Ok(remaining) else Err(LimitExceeded(remaining, limit))
      ensures key !in old(usage) || old(usage)[key].lastReset < today ==>
                && usage[key] == Usage(0, today)
                && r == if charsNeeded <= limit then Ok(limit) else Err(LimitExceeded(limit, limit))
      ensures key in old(usage) && old(usage)[key].lastReset >= today ==>
                && usage[key] == Usage(old(usage)[key].charsUsed, today)
                && var left := limit - old(usage)[key].charsUsed;
                r == if charsNeeded <= left then Ok(left) else Err(LimitExceeded(left, limit))
      ensures forall other :: other != key ==> (other in usage <==> other in old(usage))
      ensures forall other :: other != key && other in usage ==> usage[other] == old(usage)[other]
    {
      var row := Touched(Row(key), today);
      usage := usage[key := row];
      var remaining := limit - row.charsUsed;
      if remaining < charsNeeded {
        return Err(LimitExceeded(remaining, limit));
      }
      return Ok(remaining);
    }

    /** The check for a request without an account. */
    method CheckLimit(ipHash: string, charsNeeded: int, today: int) returns (r: Result<int, LimitExceeded>)
      modifies this
      ensures usage == old(usage)[ipHash := Touched(old(Row(ipHash)), today)]
      ensures var used := if ipHash in old(usage) && old(usage)[ipHash].lastReset >= today
                          then old(usage)[ipHash].charsUsed else 0;
              r == if used + charsNeeded <= 300 then Ok(300 - used) else Err(LimitExceeded(300 - used, 300))
    {
      r := CheckLimitWith(ipHash, charsNeeded, FREE_TIER_DAILY_LIMIT, today);
    }

    /** Using characters up looks at no date and changes no row but its own, and none if there is none. */
    method Consume(key: string, chars: int)
      modifies this
      ensures old(Row(key)).None? ==> usage == old(usage)
      ensures old(Row(key)).Some? ==>
                var u := old(usage)[key];
                usage == old(usage)[key := Usage(u.charsUsed + chars, u.lastReset)]
    {
      if key in usage {
        usage := usage[key := usage[key].(charsUsed := usage[key].charsUsed + chars)];
      }
    }

    method GetRemaining(key: string, limit: int, today: int) returns (remaining: int)
      modifies this
      ensures usage == old(usage)[key := Touched(old(Row(key)), today)]
      ensures var used := if key in old(usage) && old(usage)[key].lastReset >= today
                          then old(usage)[key].charsUsed else 0;
              && usage[key] == Usage(used, today)
              && remaining == if used <= limit then limit - used else 0
    {
      var row := Touched(Row(key), today);
      usage := usage[key := row];
      remaining := if limit - row.charsUsed < 0 then 0 else limit - row.charsUsed;
    }
  }

  // ---------------------------------------------------------------------------------------------
  // Interleaved requests of one key
  // ---------------------------------------------------------------------------------------------

  /** An admitted request: its size, and the day it was checked. */
  datatype Ticket = Ticket(chars: nat, day: int)

  /** The row, the requests between check and consumption, and those that went through. */
  datatype Meter = Meter(row: Option<Usage>, pending: seq<Ticket>, served: seq<Ticket>)

  datatype Step = Check(chars: nat, today: int) | Use(ticket: nat) | GiveUp(ticket: nat) | Look(today: int)

  function Without(tickets: seq<Ticket>, i: nat): (r: seq<Ticket>)
    requires i < |tickets|
    ensures |r| == |tickets| - 1
  {
    tickets[..i] + tickets[i + 1..]
  }

  function Next(m: Meter, limit: nat, s: Step): (r: Meter)
  {
    match s
    case Check(chars, today) =>
      var row := Touched(m.row, today);
      if row.charsUsed + chars <= limit then Meter(Some(row), m.pending + [Ticket(chars, today)], m.served)
      else m.(row := Some(row))
    case Use(i) =>
      if i < |m.pending| && m.row.Some? then
        var t := m.pending[i];
        Meter(Some(m.row.value.(charsUsed := m.row.value.charsUsed + t.chars)), Without(m.pending, i), m.served + [t])
      else m
    case GiveUp(i) => if i < |m.pending| then m.(pending := Without(m.pending, i)) else m
    case Look(today) => m.(row := Some(Touched(m.row, today)))
  }

  /** At most `k` requests are between check and consumption, and the calendar does not run backwards. */
  predicate Allowed(m: Meter, limit: nat, k: nat, s: Step)
  {
    && |Next(m, limit, s).pending| <= k
    && ((s.Check? || s.Look?) && m.row.Some? ==> m.row.value.lastReset <= s.today)
  }

  predicate IsRun(m: Meter, limit: nat, k: nat, steps: seq<Step>)
    decreases |steps|
  {
    steps == [] || (Allowed(m, limit, k, steps[0]) && IsRun(Next(m, limit, steps[0]), limit, k, steps[1..]))
  }

  function Final(m: Meter, limit: nat, steps: seq<Step>): (r: Meter)
    decreases |steps|
  {
    if steps == [] then m else Final(Next(m, limit, steps[0]), limit, steps[1..])
  }

  const UNUSED := Meter(None, [], [])

  function Chars(tickets: seq<Ticket>): (r: nat)
  {
    if tickets == [] then 0 else Chars(tickets[..|tickets| - 1]) + tickets[|tickets| - 1].chars
  }

  /** The characters of the tickets of one day. */
  function CharsOf(tickets: seq<Ticket>, day: int): (r: nat)
  {
    if tickets == [] then 0
    else
      var t := tickets[|tickets| - 1];
      CharsOf(tickets[..|tickets| - 1], day) + if t.day == day then t.chars else 0
  }

  lemma CharsWithOneMore(tickets: seq<Ticket>, t: Ticket, day: int)
    ensures Chars(tickets + [t]) == Chars(tickets) + t.chars
    ensures CharsOf(tickets + [t], day) == CharsOf(tickets, day) + if t.day == day then t.chars else 0
  {
    assert (tickets + [t])[..|tickets|] == tickets;
  }

  lemma {:induction false} CharsWithout(tickets: seq<Ticket>, i: nat, day: int)
    requires i < |tickets|
    ensures Chars(Without(tickets, i)) == Chars(tickets) - tickets[i].chars
    ensures CharsOf(Without(tickets, i), day) ==
            CharsOf(tickets, day) - if tickets[i].day == day then tickets[i].chars else 0
  {
    var n := |tickets| - 1;
    if i < n {
      CharsWithout(tickets[..n], i, day);
      CharsWithOneMore(Without(tickets[..n], i), tickets[n], day);
      assert Without(tickets, i) == Without(tickets[..n], i) + [tickets[n]];
    } else {
      assert Without(tickets, i) == tickets[..n];
    }
  }

  lemma {:induction false} CharsOfDayAreSome(tickets: seq<Ticket>, day: int)
    ensures CharsOf(tickets, day) <= Chars(tickets)
  {
    if tickets != [] {
      CharsOfDayAreSome(tickets[..|tickets| - 1], day);
    }
  }

  function Times(k: nat, limit: nat): (r: nat)
  {
    if k == 0 then 0 else Times(k - 1, limit) + limit
  }

  lemma {:induction false} TimesIsProduct(k: nat, limit: nat)
    ensures Times(k, limit) == k * limit
  {
    if k > 0 {
      TimesIsProduct(k - 1, limit);
    }
  }

  lemma {:induction false} TimesGrows(j: nat, k: nat, limit: nat)
    requires j <= k
    ensures Times(j, limit) <= Times(k, limit)
  {
    if j < k {
      TimesGrows(j, k - 1, limit);
    }
  }

  lemma {:induction false} CharsAtMost(tickets: seq<Ticket>, limit: nat)
    requires forall t :: t in tickets ==> t.chars <= limit
    ensures Chars(tickets) <= Times(|tickets|, limit)
  {
    if tickets != [] {
      CharsAtMost(tickets[..|tickets| - 1], limit);
    }
  }

  /** What the row and the tickets look like at any time. */
  ghost predicate Sound(m: Meter, limit: nat)
  {
    && (m.row.None? ==> m.pending == [] && m.served == [])
    && (m.row.Some? ==> m.row.value.charsUsed >= 0)
    && (forall t :: t in m.pending ==> t.chars <= limit && m.row.Some? && t.day <= m.row.value.lastReset)
    && (forall t :: t in m.served ==> m.row.Some? && t.day <= m.row.value.lastReset)
  }

  /** Used plus admitted stays within `bound`. */
  predicate WithinBound(m: Meter, bound: nat)
  {
    m.row.Some? ==> m.row.value.charsUsed + Chars(m.pending) <= bound
  }

  /** What a day's requests took or will take: today's is on the row, and an earlier day's is within `bound`. */
  predicate DayWithinBound(m: Meter, day: int, bound: nat)
  {
    m.row.Some? ==>
      if day < m.row.value.lastReset then CharsOf(m.served, day) + CharsOf(m.pending, day) <= bound
      else if day == m.row.value.lastReset then CharsOf(m.served, day) <= m.row.value.charsUsed
      else CharsOf(m.served, day) == 0
  }

  lemma TicketsOfWithout(tickets: seq<Ticket>, i: nat)
    requires i < |tickets|
    ensures forall t :: t in Without(tickets, i) ==> t in tickets
  {
  }

  lemma SoundStep(m: Meter, limit: nat, k: nat, s: Step)
    requires Sound(m, limit) && Allowed(m, limit, k, s)
    ensures Sound(Next(m, limit, s), limit)
  {
    if (s.Use? || s.GiveUp?) && s.ticket < |m.pending| {
      TicketsOfWithout(m.pending, s.ticket);
      assert m.pending[s.ticket] in m.pending;
    }
  }

  lemma BoundStep(m: Meter, limit: nat, k: nat, s: Step)
    requires Sound(m, limit) && |m.pending| <= k && Allowed(m, limit, k, s)
    requires WithinBound(m, Times(k, limit))
    ensures WithinBound(Next(m, limit, s), Times(k, limit))
  {
    match s
    case Check(chars, today) =>
      CharsWithOneMore(m.pending, Ticket(chars, today), today);
      CharsAtMost(m.pending, limit);
      TimesGrows(|m.pending|, k, limit);
      if |m.pending| < k {
        TimesGrows(|m.pending|, k - 1, limit);
      }
    case Use(i) =>
      if i < |m.pending| {
        CharsWithout(m.pending, i, 0);
      }
    case GiveUp(i) =>
      if i < |m.pending| {
        CharsWithout(m.pending, i, 0);
      }
    case Look(_) =>
      CharsAtMost(m.pending, limit);
      TimesGrows(|m.pending|, k, limit);
  }

  lemma DayStep(m: Meter, limit: nat, k: nat, s: Step, day: int)
    requires Sound(m, limit) && Allowed(m, limit, k, s)
    requires WithinBound(m, Times(k, limit)) && DayWithinBound(m, day, Times(k, limit))
    ensures DayWithinBound(Next(m, limit, s), day, Times(k, limit))
  {
    CharsOfDayAreSome(m.pending, day);
    match s
    case Check(chars, today) =>
      CharsWithOneMore(m.pending, Ticket(chars, today), day);
    case Use(i) =>
      if i < |m.pending| {
        assert m.pending[i] in m.pending;
        CharsWithout(m.pending, i, day);
        CharsWithOneMore(m.served, m.pending[i], day);
      }
    case GiveUp(i) =>
      if i < |m.pending| {
        CharsWithout(m.pending, i, day);
      }
    case Look(_) =>
  }

  lemma {:induction false} RunStays(m: Meter, limit: nat, k: nat, steps: seq<Step>, day: int)
    requires Sound(m, limit) && |m.pending| <= k && IsRun(m, limit, k, steps)
    requires WithinBound(m, Times(k, limit)) && DayWithinBound(m, day, Times(k, limit))
    ensures var f := Final(m, limit, steps);
            && Sound(f, limit) && |f.pending| <= k
            && WithinBound(f, Times(k, limit)) && DayWithinBound(f, day, Times(k, limit))
    decreases |steps|
  {
    hide Sound, WithinBound, DayWithinBound, Next, Times;
    if steps != [] {
      SoundStep(m, limit, k, steps[0]);
      BoundStep(m, limit, k, steps[0]);
      DayStep(m, limit, k, steps[0], day);
      RunStays(Next(m, limit, steps[0]), limit, k, steps[1..], day);
    }
  }

  /**
   With at most `k` requests between check and consumption, in every interleaving and over every
   change of day, used plus admitted characters never exceed `k` limits.
   */
  lemma UsedPlusAdmitted(limit: nat, k: nat, steps: seq<Step>)
    requires IsRun(UNUSED, limit, k, steps)
    ensures var f := Final(UNUSED, limit, steps);
            f.row.Some? ==> f.row.value.charsUsed + Chars(f.pending) <= k * limit
  {
    RunStays(UNUSED, limit, k, steps, 0);
    TimesIsProduct(k, limit);
  }

  /** On no day do the requests admitted that day get more than `k` limits served, however late they are consumed. */
  lemma ServedPerDay(limit: nat, k: nat, steps: seq<Step>, day: int)
    requires IsRun(UNUSED, limit, k, steps)
    ensures CharsOf(Final(UNUSED, limit, steps).served, day) <= k * limit
  {
    RunStays(UNUSED, limit, k, steps, day);
    TimesIsProduct(k, limit);
  }

  /** One request at a time never exceeds the limit. */
  lemma OneAtATime(limit: nat, steps: seq<Step>, day: int)
    requires IsRun(UNUSED, limit, 1, steps)
    ensures var f := Final(UNUSED, limit, steps);
            && (f.row.Some? ==> f.row.value.charsUsed + Chars(f.pending) <= limit)
            && CharsOf(f.served, day) <= limit
  {
    UsedPlusAdmitted(limit, 1, steps);
    ServedPerDay(limit, 1, steps, day);
  }

  // ---------------------------------------------------------------------------------------------
  // What the row says
  // ---------------------------------------------------------------------------------------------

  predicate Touches(s: Step)
  {
    s.Check? || s.Look?
  }

  /** None of these steps looks at the row on a later day. */
  predicate SameDay(steps: seq<Step>, day: int)
  {
    forall s :: s in steps && Touches(s) ==> s.today <= day
  }

  lemma {:induction false} CharsOfMore(a: seq<Ticket>, b: seq<Ticket>)
    ensures Chars(a + b) == Chars(a) + Chars(b)
  {
    if b == [] {
      assert a + b == a;
    } else {
      var n := |b| - 1;
      CharsOfMore(a, b[..n]);
      assert (a + b)[..|a| + n] == a + b[..n];
    }
  }

  /** The row of one day that these tickets, served since, have been added to. */
  predicate AddsUp(m: Meter, f: Meter)
    requires m.row.Some?
  {
    && m.served <= f.served
    && f.row == Some(Usage(m.row.value.charsUsed + Chars(f.served[|m.served|..]), m.row.value.lastReset))
  }

  lemma AddsUpTwice(m: Meter, n: Meter, f: Meter)
    requires m.row.Some? && AddsUp(m, n) && AddsUp(n, f)
    ensures AddsUp(m, f)
  {
    hide Chars;
    var added, more := n.served[|m.served|..], f.served[|n.served|..];
    CharsOfMore(added, more);
    assert f.served[|m.served|..] == added + more;
  }

  /** While the day lasts, what is used up goes on the row, and nothing else does. */
  lemma {:induction false} DayAddsUp(m: Meter, limit: nat, k: nat, steps: seq<Step>)
    requires m.row.Some? && IsRun(m, limit, k, steps) && SameDay(steps, m.row.value.lastReset)
    ensures AddsUp(m, Final(m, limit, steps))
    decreases |steps|
  {
    hide Next, Allowed, Chars;
    if steps == [] {
      NothingAdded(m);
    } else {
      var next := Next(m, limit, steps[0]);
      assert steps[0] in steps;
      assert forall s :: s in steps[1..] ==> s in steps;
      StepWithinDay(m, limit, k, steps[0]);
      DayAddsUp(next, limit, k, steps[1..]);
      AddsUpTwice(m, next, Final(m, limit, steps));
    }
  }

  lemma NothingAdded(m: Meter)
    requires m.row.Some?
    ensures AddsUp(m, m)
  {
    assert m.served[|m.served|..] == [];
  }

  lemma OneAdded(m: Meter, f: Meter, t: Ticket)
    requires m.row.Some? && f.served == m.served + [t]
    requires f.row == Some(Usage(m.row.value.charsUsed + t.chars, m.row.value.lastReset))
    ensures AddsUp(m, f)
  {
    hide Chars;
    CharsWithOneMore([], t, 0);
    assert f.served[|m.served|..] == [] + [t];
    assert Chars([]) == 0 by { NoChars(); }
  }

  lemma NoChars()
    ensures Chars([]) == 0
  {
  }

  lemma StepWithinDay(m: Meter, limit: nat, k: nat, s: Step)
    requires m.row.Some? && Allowed(m, limit, k, s) && (Touches(s) ==> s.today <= m.row.value.lastReset)
    ensures AddsUp(m, Next(m, limit, s))
  {
    hide AddsUp, Chars;
    var next := Next(m, limit, s);
    if s.Use? && s.ticket < |m.pending| {
      OneAdded(m, next, m.pending[s.ticket]);
    } else {
      assert next.row == m.row && next.served == m.served;
      SameAdded(m, next);
    }
  }

  lemma SameAdded(m: Meter, f: Meter)
    requires m.row.Some? && f.row == m.row && f.served == m.served
    ensures AddsUp(m, f)
  {
    assert f.served[|m.served|..] == [];
  }

  /**
   Over every run: from the first look at the row on a day until the next day's, whatever comes between,
   the row is dated that day and holds exactly the characters used up since that look.
   */
  lemma RowIsUsedSinceFirstTouch(limit: nat, k: nat, before: seq<Step>, touch: Step, since: seq<Step>)
    requires IsRun(UNUSED, limit, k, before + ([touch] + since)) && Touches(touch) && SameDay(since, touch.today)
    requires var m := Final(UNUSED, limit, before); m.row.None? || m.row.value.lastReset < touch.today
    ensures var m, f := Final(UNUSED, limit, before), Final(UNUSED, limit, before + ([touch] + since));
            && m.served <= f.served
            && f.row == Some(Usage(Chars(f.served[|m.served|..]), touch.today))
  {
    var m := Final(UNUSED, limit, before);
    RunsJoin(UNUSED, limit, k, before, [touch] + since);
    assert ([touch] + since)[1..] == since;
    var touched := Next(m, limit, touch);
    assert touched.row == Some(Usage(0, touch.today)) && touched.served == m.served;
    DayAddsUp(touched, limit, k, since);
  }

  lemma {:induction false} RunsJoin(m: Meter, limit: nat, k: nat, a: seq<Step>, b: seq<Step>)
    requires IsRun(m, limit, k, a + b)
    ensures IsRun(Final(m, limit, a), limit, k, b)
    ensures Final(m, limit, a + b) == Final(Final(m, limit, a), limit, b)
    decreases |a|
  {
    hide Next, Allowed;
    if a == [] {
      assert a + b == b;
    } else {
      assert (a + b)[0] == a[0] && (a + b)[1..] == a[1..] + b;
      RunsJoin(Next(m, limit, a[0]), limit, k, a[1..], b);
    }
  }

  // The bound is reached: k requests of full size, all checked before the first is consumed.

  function Checks(k: nat, chars: nat, today: int): (r: seq<Step>)
    ensures |r| == k
  {
    if k == 0 then [] else [Check(chars, today)] + Checks(k - 1, chars, today)
  }

  function Uses(k: nat): (r: seq<Step>)
    ensures |r| == k
  {
    if k == 0 then [] else [Use(0)] + Uses(k - 1)
  }

  function Tickets(k: nat, chars: nat, today: int): (r: seq<Ticket>)
    ensures |r| == k
  {
    seq(k, _ => Ticket(chars, today))
  }

  lemma {:induction false} AllChecked(m: Meter, limit: nat, k: nat, today: int, j: nat, rest: seq<Step>)
    requires j + |m.pending| <= k
    requires m.row.Some? ==> m.row == Some(Usage(0, today))
    requires m.pending == Tickets(|m.pending|, limit, today) && m.served == []
    requires var full := Meter(if j == 0 then m.row else Some(Usage(0, today)),
                               Tickets(j + |m.pending|, limit, today), []);
             IsRun(full, limit, k, rest)
    ensures var full := Meter(if j == 0 then m.row else Some(Usage(0, today)),
                              Tickets(j + |m.pending|, limit, today), []);
            IsRun(m, limit, k, Checks(j, limit, today) + rest) &&
            Final(m, limit, Checks(j, limit, today) + rest) == Final(full, limit, rest)
    decreases j
  {
    var steps := Checks(j, limit, today) + rest;
    if j == 0 {
      assert steps == rest;
      assert m == Meter(m.row, Tickets(|m.pending|, limit, today), []);
    } else {
      var next := Next(m, limit, Check(limit, today));
      assert next == Meter(Some(Usage(0, today)), Tickets(|m.pending| + 1, limit, today), []);
      assert steps[1..] == Checks(j - 1, limit, today) + rest;
      AllChecked(next, limit, k, today, j - 1, rest);
    }
  }

  lemma {:induction false} AllUsed(m: Meter, limit: nat, k: nat, today: int)
    requires m.row.Some? && m.pending == Tickets(|m.pending|, limit, today) && |m.pending| <= k
    ensures var steps := Uses(|m.pending|);
            IsRun(m, limit, k, steps) &&
            var f := Final(m, limit, steps);
            && f.row == Some(Usage(m.row.value.charsUsed + Times(|m.pending|, limit), m.row.value.lastReset))
            && f.served == m.served + Tickets(|m.pending|, limit, today)
    decreases |m.pending|
  {
    var j := |m.pending|;
    if j > 0 {
      var next := Next(m, limit, Use(0));
      assert next.pending == Tickets(j - 1, limit, today);
      assert Uses(j)[1..] == Uses(j - 1);
      AllUsed(next, limit, k, today);
      assert m.served + Tickets(j, limit, today) == next.served + Tickets(j - 1, limit, today);
    } else {
      assert m.served + Tickets(0, limit, today) == m.served;
    }
  }

  /** The bound is reached for every `k` and limit, in one day, so no smaller one holds. */
  lemma BoundIsReached(limit: nat, k: nat, today: int)
    requires k > 0
    ensures var steps := Checks(k, limit, today) + Uses(k);
            && IsRun(UNUSED, limit, k, steps)
            && Final(UNUSED, limit, steps).row == Some(Usage(k * limit, today))
  {
    var full := Meter(Some(Usage(0, today)), Tickets(k, limit, today), []);
    AllUsed(full, limit, k, today);
    AllChecked(UNUSED, limit, k, today, k, Uses(k));
    TimesIsProduct(k, limit);
  }
}
