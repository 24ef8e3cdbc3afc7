/**
 The request that creates a synthesis job. It is paid for, or counted against a free allowance,
 before the job's row is written; which of the two decides the job's priority.
 */
module TtsRoute {
  import opened Wrappers
  import Sono
  import Billing
  import FreeTier
  import opened JobQueue

  const ANONYMOUS_MAX_SIZE: nat := 1000

  const PAID: int := 50
  const FREE_ACCOUNT: int := 10
  const FREE_ANONYMOUS: int := 0

  datatype Tariff = Paid | FreeWithAccount | FreeWithout

  /** The priority that a request writes. */
  function PriorityOf(t: Tariff): (r: int)
  {
    match t
    case Paid => PAID
    case FreeWithAccount => FREE_ACCOUNT
    case FreeWithout => FREE_ANONYMOUS
  }

  /** Who asks; `key` is the hash under which the free allowance is counted. */
  datatype TtsUser =
    | Account(user: Billing.UserId, wallet: Option<Billing.Wallet>, key: string)
    | Anonymous(key: string)

  datatype Refusal = EmptyText | ContentTooLarge | LimitExceeded(remaining: int, limit: int) | DatabaseError

  function MaxSize(user: TtsUser, configured: nat): (r: nat)
  {
    if user.Anonymous? then ANONYMOUS_MAX_SIZE else configured
  }

  function AllowanceOf(user: TtsUser): (r: nat)
  {
    if user.Anonymous? then FreeTier.FREE_TIER_DAILY_LIMIT else FreeTier.FREE_TIER_LOGGED_IN_LIMIT
  }

  /** Everything a request may touch. */
  class Service {
    const ledger: Billing.Ledger
    const sono: Sono.SonoService?
    const free: FreeTier.FreeTierUsage
    const jobs: JobTable
    const maxContentSize: nat

    constructor (ledger: Billing.Ledger, sono: Sono.SonoService?, free: FreeTier.FreeTierUsage, jobs: JobTable,
                 maxContentSize: nat)
      ensures this.ledger == ledger && this.sono == sono && this.free == free && this.jobs == jobs
      ensures this.maxContentSize == maxContentSize
    {
      this.ledger, this.sono, this.free, this.jobs := ledger, sono, free, jobs;
      this.maxContentSize := maxContentSize;
    }

    /** What the user can pay with, counted as the balance report counts it. */
    ghost function Funds(user: Billing.UserId, wallet: Option<Billing.Wallet>): (r: nat)
      reads ledger, sono
    {
      var custodial := if user in ledger.txtBalance then ledger.txtBalance[user] else 0;
      Billing.Max0(custodial) + Billing.Clamp(Billing.ChannelCover(sono, wallet))
    }

    /** The same without the report's 64-bit clamp. */
    ghost function Worth(user: Billing.UserId, wallet: Option<Billing.Wallet>): (r: nat)
      reads ledger, sono
    {
      var custodial := if user in ledger.txtBalance then ledger.txtBalance[user] else 0;
      Billing.Max0(custodial) + Billing.ChannelCover(sono, wallet)
    }

    ghost predicate Pays(user: TtsUser, txtCost: int)
      reads ledger, sono
    {
      user.Account? && (txtCost <= 0 || Funds(user.user, user.wallet) >= txtCost)
    }

    /** The allowance already used today. */
    ghost function UsedToday(key: string, today: int): (r: int)
      reads free
    {
      if key in free.usage && free.usage[key].lastReset >= today then free.usage[key].charsUsed else 0
    }

    ghost predicate Admitted(user: TtsUser, chars: nat, txtCost: int, today: int)
      reads ledger, sono, free
    {
      && 0 < chars <= (if user.Anonymous? then 1000 else maxContentSize)
      && (Pays(user, txtCost) || UsedToday(user.key, today) + chars <= if user.Anonymous? then 300 else 1000)
    }

    /**
     A request gets a job exactly when its text is of a legal size and it is paid for or fits the
     allowance. A paid job leaves the allowance alone and a free one the money. If writing the job
     fails, an anonymous request has used nothing up, but an account has paid or used all the same.
     */
    method Tts(user: TtsUser, chars: nat, txtCost: int, now: int, today: int, stored: bool)
      returns (r: Result<nat, Refusal>)
      requires txtCost <= Billing.I64_MAX && Billing.ChannelsInRange(sono)
      modifies ledger, sono, free, jobs
      ensures r.Ok? <==> old(Admitted(user, chars, txtCost, today)) && stored
      ensures r.Err? ==> jobs.rows == old(jobs.rows)
      ensures r.Ok? ==>
                && r.value == |old(jobs.rows)|
                && jobs.rows == old(jobs.rows)
                   + [Job(PriorityOf(if old(Pays(user, txtCost)) then Paid
                                     else if user.Account? then FreeWithAccount else FreeWithout),
                          now, Queued)]
      ensures old(Admitted(user, chars, txtCost, today)) && old(Pays(user, txtCost)) ==>
                && free.usage == old(free.usage)
                && Worth(user.user, user.wallet) ==
                   old(Worth(user.user, user.wallet)) - if txtCost > 0 then txtCost else 0
      ensures old(Admitted(user, chars, txtCost, today)) && !old(Pays(user, txtCost)) ==>
                var used := old(UsedToday(user.key, today)) + if stored || user.Account? then chars else 0;
                free.usage == old(free.usage)[user.key := FreeTier.Usage(used, today)]
      ensures !old(Pays(user, txtCost)) || !old(Admitted(user, chars, txtCost, today)) ==>
                ledger.Books() == old(ledger.Books()) && (sono != null ==> sono.channels == old(sono.channels))
      ensures !old(Admitted(user, chars, txtCost, today)) ==>
                && r == Err(if chars == 0 then EmptyText
                            else if chars > MaxSize(user, maxContentSize) then ContentTooLarge
                            else LimitExceeded(AllowanceOf(user) - old(UsedToday(user.key, today)), AllowanceOf(user)))
    {
      hide FreeTier.Touched, Billing.Post, Billing.ChannelCover, Billing.Clamp;
      if chars == 0 {
        return Err(EmptyText);
      }
      if chars > MaxSize(user, maxContentSize) {
        return Err(ContentTooLarge);
      }
      match user
      case Account(id, wallet, key) =>
        var charge := Charge(id, wallet, txtCost);
        if charge.Ok? {
          r := AddJob(PAID, now, stored);
          return;
        }
        var check := CheckFree(key, chars, FreeTier.FREE_TIER_LOGGED_IN_LIMIT, today);
        if check.Err? {
          return Err(check.error);
        }
        free.Consume(key, chars);
        r := AddJob(FREE_ACCOUNT, now, stored);
      case Anonymous(key) =>
        var check := CheckFree(key, chars, FreeTier.FREE_TIER_DAILY_LIMIT, today);
        if check.Err? {
          return Err(check.error);
        }
        if !stored {
          return Err(DatabaseError);
        }
        free.Consume(key, chars);
        r := AddJob(FREE_ANONYMOUS, now, stored);
    }

    /** The check of the allowance: a refusal says what is left of it, and the row is dated today in any case. */
    method CheckFree(key: string, chars: nat, limit: nat, today: int) returns (r: Result<(), Refusal>)
      modifies free
      ensures var used := old(UsedToday(key, today));
              && r == (if used + chars <= limit then Ok(()) else Err(LimitExceeded(limit - used, limit)))
              && free.usage == old(free.usage)[key := FreeTier.Usage(used, today)]
    {
      var check := free.CheckLimitWith(key, chars, limit, today);
      if check.Err? {
        return Err(LimitExceeded(check.error.remaining, check.error.limit));
      }
      return Ok(());
    }

    /** The charge, seen from what the user can pay with: it takes the cost and nothing else. */
    method Charge(user: Billing.UserId, wallet: Option<Billing.Wallet>, txtCost: int)
      returns (r: Result<Billing.ChargeResult, Billing.ApiError>)
      requires txtCost <= Billing.I64_MAX && Billing.ChannelsInRange(sono)
      modifies ledger, sono
      ensures r.Ok? <==> txtCost <= 0 || old(Funds(user, wallet)) >= txtCost
      ensures r.Ok? ==> Worth(user, wallet) == old(Worth(user, wallet)) - if txtCost > 0 then txtCost else 0
      ensures r.Err? ==> ledger.Books() == old(ledger.Books()) && (sono != null ==> sono.channels == old(sono.channels))
    {
      r := ledger.CheckAndCharge(sono, user, wallet, txtCost);
    }

    method AddJob(priority: int, now: int, stored: bool) returns (r: Result<nat, Refusal>)
      modifies jobs
      ensures stored ==> r == Ok(|old(jobs.rows)|) && jobs.rows == old(jobs.rows) + [Job(priority, now, Queued)]
      ensures !stored ==> r == Err(DatabaseError) && jobs.rows == old(jobs.rows)
    {
      if !stored {
        return Err(DatabaseError);
      }
      jobs.rows := jobs.rows + [Job(priority, now, Queued)];
      return Ok(|jobs.rows| - 1);
    }
  }

  // ---------------------------------------------------------------------------------------------
  // Paid jobs before free ones
  // ---------------------------------------------------------------------------------------------

  /** The rows were written by requests under these tariffs, perhaps more requests than these rows are from. */
  predicate WrittenUnder(tariffs: seq<Tariff>, rows: seq<Job>)
  {
    |rows| <= |tariffs| && forall i :: 0 <= i < |rows| ==> rows[i].priority == PriorityOf(tariffs[i])
  }

  /** Has to wait for the other. */
  predicate Precedes(a: Tariff, b: Tariff)
  {
    (a.Paid? && !b.Paid?) || (a.FreeWithAccount? && b.FreeWithout?)
  }

  /** No claim is made of a row while one that precedes it is queued. */
  predicate TariffsRespected(b: Board, tariffs: seq<Tariff>, events: seq<Event>)
    requires WellFormed(b)
    decreases |events|
  {
    events != [] ==>
      && (events[0].Claim? && events[0].row < |b.rows| <= |tariffs| ==>
            forall k :: 0 <= k < |b.rows| && b.rows[k].status.Queued? ==> !Precedes(tariffs[k], tariffs[events[0].row]))
      && TariffsRespected(After(b, events[0]), tariffs, events[1..])
  }

  lemma PrioritiesStayStep(b: Board, e: Event)
    requires WellFormed(b)
    ensures |b.rows| <= |After(b, e).rows|
    ensures forall i :: 0 <= i < |b.rows| ==> After(b, e).rows[i].priority == b.rows[i].priority
  {
  }

  lemma {:induction false} PrioritiesStay(b: Board, events: seq<Event>)
    requires WellFormed(b)
    ensures |b.rows| <= |Final(b, events).rows|
    ensures forall i :: 0 <= i < |b.rows| ==> Final(b, events).rows[i].priority == b.rows[i].priority
    decreases |events|
  {
    hide After;
    if events != [] {
      PrioritiesStayStep(b, events[0]);
      PrioritiesStay(After(b, events[0]), events[1..]);
    }
  }

  /**
   In every run of the queue whose rows were written by requests, recoveries included: while a paid job
   waits no free one is claimed, and while one with an account waits none without.
   */
  lemma {:induction false} PaidGoFirst(b: Board, tariffs: seq<Tariff>, events: seq<Event>)
    requires WellFormed(b) && IsRun(b, events) && WrittenUnder(tariffs, Final(b, events).rows)
    ensures TariffsRespected(b, tariffs, events)
    decreases |events|
  {
    hide After, Final;
    if events != [] {
      PaidGoFirst(After(b, events[0]), tariffs, events[1..]) by { FinalUnfolds(b, events); }
      PrioritiesStay(b, events);
      if events[0].Claim? {
        ClaimRespects(b.rows, tariffs, events[0].row);
      }
    }
  }

  lemma FinalUnfolds(b: Board, events: seq<Event>)
    requires WellFormed(b) && events != []
    ensures Final(b, events) == Final(After(b, events[0]), events[1..])
  {
  }

  lemma ClaimRespects(rows: seq<Job>, tariffs: seq<Tariff>, i: nat)
    requires WrittenUnder(tariffs, rows) && IsNext(rows, i)
    ensures forall k :: 0 <= k < |rows| && rows[k].status.Queued? ==> !Precedes(tariffs[k], tariffs[i])
  {
  }

  /** So a paid job that waits is claimed before a free one written earlier. */
  lemma PaidOvertakes(now: int, later: int)
    ensures var rows := [Job(PriorityOf(FreeWithout), now, Queued), Job(PriorityOf(FreeWithAccount), now, Queued),
                         Job(PriorityOf(Paid), later, Queued)];
            forall i: nat :: IsNext(rows, i) <==> i == 2
  {
    var rows := [Job(PriorityOf(FreeWithout), now, Queued), Job(PriorityOf(FreeWithAccount), now, Queued),
                 Job(PriorityOf(Paid), later, Queued)];
    assert rows[2].status.Queued? && rows[1].status.Queued?;
  }
}
