/**
 Crediting deposits. A handler looks its deposit up, records it and credits it in three separate
 statements; any number of handlers, some for the same transaction, come between each other and may
 die between statements. Amounts are reals.
 */
module Deposits {
  import opened Wrappers

  datatype Status = Pending | Confirmed | Credited

  datatype Deposit = Deposit(account: nat, tx: string, amount: real, status: Status)

  /** An entry of the transaction log; it landed if there was a balance to add to. */
  datatype Entry = Entry(row: nat, account: nat, amount: real, landed: bool)

  datatype Db = Db(accounts: set<nat>, balances: map<nat, real>, rows: seq<Deposit>, log: seq<Entry>)

  predicate Exists(db: Db, tx: string)
  {
    exists r :: 0 <= r < |db.rows| && db.rows[r].tx == tx
  }

  /** The insert fails on a transaction already there, and on an account that is not. */
  function Insert(db: Db, d: Deposit): (r: Option<Db>)
  {
    if Exists(db, d.tx) || d.account !in db.accounts then None else Some(db.(rows := db.rows + [d]))
  }

  /** The crediting transaction: the row's status, the balance if there is one, and the log. */
  function Credit(db: Db, row: nat): (r: Db)
    requires row < |db.rows|
  {
    var d := db.rows[row];
    Db(db.accounts,
       if d.account in db.balances then db.balances[d.account := db.balances[d.account] + d.amount] else db.balances,
       db.rows[row := d.(status := Credited)],
       db.log + [Entry(row, d.account, d.amount, d.account in db.balances)])
  }

  datatype Source = AssetHub | Penumbra | Manual

  /** A deposit as it is reported; the account is unknown if the address or the user id means nothing. */
  datatype Report = Report(account: Option<nat>, tx: string, amount: real, source: Source)

  function RowOf(p: Report): (r: Deposit)
    requires p.account.Some?
  {
    Deposit(p.account.value, p.tx, p.amount, if p.source.Manual? then Pending else Confirmed)
  }

  datatype Failure = BadUserId | AlreadyRecorded | DatabaseError

  /** The three statements of one handler with nothing in between. */
  function Handled(db: Db, p: Report): (r: (Db, Result<(), Failure>))
  {
    if p.account.None? then (db, if p.source.Penumbra? then Ok(()) else Err(BadUserId))
    else if Exists(db, p.tx) then (db, if p.source.Manual? then Err(AlreadyRecorded) else Ok(()))
    else
      match Insert(db, RowOf(p))
      case None => (db, Err(DatabaseError))
      case Some(inserted) => (if p.source.Manual? then inserted else Credit(inserted, |db.rows|), Ok(()))
  }

  class PaymentsDb {
    var accounts: set<nat>
    var balances: map<nat, real>
    var rows: seq<Deposit>
    var log: seq<Entry>

    constructor (accounts: set<nat>, balances: map<nat, real>)
      ensures State() == Db(accounts, balances, [], [])
    {
      this.accounts, this.balances, rows, log := accounts, balances, [], [];
    }

    function State(): (r: Db)
      reads this
    {
      Db(accounts, balances, rows, log)
    }

    method InsertRow(d: Deposit) returns (row: Option<nat>)
      modifies this
      ensures row.None? ==> Insert(old(State()), d).None? && State() == old(State())
      ensures row.Some? ==> Insert(old(State()), d) == Some(State()) && row.value == |old(rows)|
    {
      if Exists(State(), d.tx) || d.account !in accounts {
        return None;
      }
      rows := rows + [d];
      return Some(|rows| - 1);
    }

    method CreditDeposit(row: nat, account: nat, amount: real)
      requires row < |rows| && rows[row].account == account && rows[row].amount == amount
      modifies this
      ensures State() == Credit(old(State()), row)
    {
      rows := rows[row := rows[row].(status := Credited)];
      var landed := account in balances;
      if landed {
        balances := balances[account := balances[account] + amount];
      }
      log := log + [Entry(row, account, amount, landed)];
    }

    method OnDeposit(p: Report) returns (r: Result<(), Failure>)
      modifies this
      ensures (State(), r) == Handled(old(State()), p)
      ensures p.account.None? ==>
                State() == old(State()) && r == if p.source.Penumbra? then Ok(()) else Err(BadUserId)
      ensures p.account.Some? && (exists k :: 0 <= k < |old(rows)| && old(rows)[k].tx == p.tx) ==>
                State() == old(State()) && r == if p.source.Manual? then Err(AlreadyRecorded) else Ok(())
      ensures p.account.Some? && (forall k :: 0 <= k < |old(rows)| ==> old(rows)[k].tx != p.tx) ==>
                if p.account.value !in old(accounts) then State() == old(State()) && r == Err(DatabaseError)
                else
                  && r == Ok(()) && accounts == old(accounts)
                  && rows == old(rows) + [Deposit(p.account.value, p.tx, p.amount,
                                                  if p.source.Manual? then Pending else Credited)]
                  && if p.source.Manual? then balances == old(balances) && log == old(log)
                     else
                       var a := p.account.value;
                       && log == old(log) + [Entry(|old(rows)|, a, p.amount, a in old(balances))]
                       && balances == if a in old(balances) then old(balances)[a := old(balances)[a] + p.amount]
                                      else old(balances)
    {
      if p.account.None? {
        return if p.source.Penumbra? then Ok(()) else Err(BadUserId);
      }
      if Exists(State(), p.tx) {
        return if p.source.Manual? then Err(AlreadyRecorded) else Ok(());
      }
      var row := InsertRow(RowOf(p));
      if row.None? {
        return Err(DatabaseError);
      }
      if !p.source.Manual? {
        CreditDeposit(row.value, p.account.value, p.amount);
      }
      return Ok(());
    }
  }

  // ---------------------------------------------------------------------------------------------
  // Interleaved handlers
  // ---------------------------------------------------------------------------------------------

  datatype Place = AtStart | LookedUp | Recorded(row: nat) | Ended

  datatype Handler = Handler(report: Report, place: Place)

  datatype World = World(db: Db, handlers: seq<Handler>)

  datatype Step = Deliver(report: Report) | Advance(handler: nat) | Crash(handler: nat) | Enrol(account: nat)
                | OpenCredits(account: nat)

  /** The statement a handler is at. */
  function Act(db: Db, h: Handler): (r: (Db, Place))
    requires h.place.LookedUp? ==> h.report.account.Some?
    requires h.place.Recorded? ==> h.place.row < |db.rows|
  {
    match h.place
    case AtStart => (db, if h.report.account.None? || Exists(db, h.report.tx) then Ended else LookedUp)
    case LookedUp => (
      match Insert(db, RowOf(h.report))
      case None => (db, Ended)
      case Some(inserted) => (inserted, if h.report.source.Manual? then Ended else Recorded(|db.rows|)))
    case Recorded(row) => (Credit(db, row), Ended)
    case Ended => (db, Ended)
  }

  /** Who may be where: what a handler has recorded is its own row, still to be credited, and no one else's. */
  ghost predicate Placed(w: World, i: nat)
    requires i < |w.handlers|
  {
    var h := w.handlers[i];
    && (h.place.LookedUp? ==> h.report.account.Some?)
    && (h.place.Recorded? ==>
          && h.report.account.Some? && !h.report.source.Manual? && h.place.row < |w.db.rows|
          && w.db.rows[h.place.row] == RowOf(h.report)
          && forall j :: 0 <= j < |w.handlers| && j != i ==> w.handlers[j].place != h.place)
  }

  ghost predicate AllPlaced(w: World)
  {
    forall i: nat :: i < |w.handlers| ==> Placed(w, i)
  }

  function Next(w: World, s: Step): (r: World)
    requires AllPlaced(w)
  {
    match s
    case Deliver(p) => w.(handlers := w.handlers + [Handler(p, AtStart)])
    case Advance(i) =>
      if i >= |w.handlers| then w
      else
        assert Placed(w, i);
        var (db, place) := Act(w.db, w.handlers[i]);
        World(db, w.handlers[i := w.handlers[i].(place := place)])
    case Crash(i) => if i >= |w.handlers| then w else w.(handlers := w.handlers[i := w.handlers[i].(place := Ended)])
    case Enrol(a) => w.(db := w.db.(accounts := w.db.accounts + {a}))
    case OpenCredits(a) =>
      if a in w.db.balances then w else w.(db := w.db.(balances := w.db.balances[a := 0.0]))
  }

  /** UNIQUE (tx_hash). */
  ghost predicate UniqueTx(db: Db)
  {
    forall r, s :: 0 <= r < s < |db.rows| ==> db.rows[r].tx != db.rows[s].tx
  }

  /** Every log entry is for a credited row, and no two are for the same. */
  ghost predicate LoggedOnce(db: Db)
  {
    && (forall e :: 0 <= e < |db.log| ==> db.log[e].row < |db.rows| && db.rows[db.log[e].row].status.Credited?)
    && (forall e, f :: 0 <= e < f < |db.log| ==> db.log[e].row != db.log[f].row)
  }

  function Credits(rows: seq<Deposit>, account: nat): (r: real)
  {
    if rows == [] then 0.0
    else
      var d := rows[|rows| - 1];
      Credits(rows[..|rows| - 1], account) + if d.account == account && d.status.Credited? then d.amount else 0.0
  }

  function Logged(log: seq<Entry>, account: nat): (r: real)
  {
    if log == [] then 0.0
    else
      var e := log[|log| - 1];
      Logged(log[..|log| - 1], account) + if e.account == account then e.amount else 0.0
  }

  function Landed(log: seq<Entry>, account: nat): (r: real)
  {
    if log == [] then 0.0
    else
      var e := log[|log| - 1];
      Landed(log[..|log| - 1], account) + if e.account == account && e.landed then e.amount else 0.0
  }

  function At(balances: map<nat, real>, account: nat): (r: real)
  {
    if account in balances then balances[account] else 0.0
  }

  /** The money of one account: credited rows are what was logged, and what landed is on its balance. */
  ghost predicate Accounted(db: Db, initial: map<nat, real>, account: nat)
  {
    && Credits(db.rows, account) == Logged(db.log, account)
    && At(db.balances, account) == At(initial, account) + Landed(db.log, account)
    && (account in initial ==> account in db.balances)
  }

  ghost predicate Sound(w: World)
  {
    AllPlaced(w) && UniqueTx(w.db) && LoggedOnce(w.db)
  }

  lemma PlacesAfter(w: World, i: nat, db: Db, place: Place)
    requires AllPlaced(w) && i < |w.handlers|
    requires |db.rows| >= |w.db.rows|
    requires forall r :: 0 <= r < |w.db.rows| && w.handlers[i].place != Recorded(r) ==> db.rows[r] == w.db.rows[r]
    requires place == Ended || (place == LookedUp && w.handlers[i].report.account.Some?)
             || (place == Recorded(|w.db.rows|) && |db.rows| > |w.db.rows| && w.handlers[i].report.account.Some?
                 && !w.handlers[i].report.source.Manual? && db.rows[|w.db.rows|] == RowOf(w.handlers[i].report))
    ensures AllPlaced(World(db, w.handlers[i := w.handlers[i].(place := place)]))
  {
    var v := World(db, w.handlers[i := w.handlers[i].(place := place)]);
    forall j: nat | j < |v.handlers|
      ensures Placed(v, j)
    {
      assert Placed(w, j) && Placed(w, i);
      forall k: nat | k < |w.handlers| && w.handlers[k].place.Recorded?
        ensures w.handlers[k].place.row < |w.db.rows|
      {
        assert Placed(w, k);
      }
    }
  }

  lemma SoundStep(w: World, s: Step)
    requires Sound(w)
    ensures Sound(Next(w, s))
  {
    match s
    case Deliver(p) =>
      var v := Next(w, s);
      forall j: nat | j < |v.handlers|
        ensures Placed(v, j)
      {
        assert j < |w.handlers| ==> Placed(w, j);
      }
    case Advance(i) =>
      if i < |w.handlers| {
        AdvanceIsSound(w, i);
      }
    case Crash(i) =>
      if i < |w.handlers| {
        PlacesAfter(w, i, w.db, Ended);
      }
    case Enrol(_) | OpenCredits(_) =>
      var v := Next(w, s);
      forall j: nat | j < |v.handlers|
        ensures Placed(v, j)
      {
        assert Placed(w, j);
      }
  }

  lemma AdvanceIsSound(w: World, i: nat)
    requires Sound(w) && i < |w.handlers|
    ensures Sound(Next(w, Advance(i)))
  {
    var h := w.handlers[i];
    assert Placed(w, i);
    var (db, place) := Act(w.db, h);
    PlacesAfter(w, i, db, place);
    if h.place.LookedUp? && Insert(w.db, RowOf(h.report)).Some? {
      assert forall r :: 0 <= r < |w.db.rows| ==> w.db.rows[r].tx != h.report.tx;
    }
  }

  lemma CreditsOfOneMore(rows: seq<Deposit>, d: Deposit, account: nat)
    ensures Credits(rows + [d], account) ==
            Credits(rows, account) + if d.account == account && d.status.Credited? then d.amount else 0.0
  {
    assert (rows + [d])[..|rows|] == rows;
  }

  lemma {:induction false} CreditsAfterCredit(rows: seq<Deposit>, r: nat, account: nat)
    requires r < |rows| && !rows[r].status.Credited?
    ensures Credits(rows[r := rows[r].(status := Credited)], account) ==
            Credits(rows, account) + if rows[r].account == account then rows[r].amount else 0.0
  {
    var rows', n := rows[r := rows[r].(status := Credited)], |rows| - 1;
    if r < n {
      CreditsAfterCredit(rows[..n], r, account);
      assert rows'[..n] == rows[..n][r := rows[r].(status := Credited)];
    } else {
      assert rows'[..n] == rows[..n];
    }
  }

  lemma LogOfOneMore(log: seq<Entry>, e: Entry, account: nat)
    ensures Logged(log + [e], account) == Logged(log, account) + if e.account == account then e.amount else 0.0
    ensures Landed(log + [e], account) ==
            Landed(log, account) + if e.account == account && e.landed then e.amount else 0.0
  {
    assert (log + [e])[..|log|] == log;
  }

  lemma CreditIsAccounted(db: Db, row: nat, initial: map<nat, real>, account: nat)
    requires row < |db.rows| && !db.rows[row].status.Credited? && Accounted(db, initial, account)
    ensures Accounted(Credit(db, row), initial, account)
  {
    hide Credits, Logged, Landed;
    var d := db.rows[row];
    CreditsAfterCredit(db.rows, row, account);
    LogOfOneMore(db.log, Entry(row, d.account, d.amount, d.account in db.balances), account);
  }

  lemma AccountedStep(w: World, s: Step, initial: map<nat, real>, account: nat)
    requires Sound(w) && Accounted(w.db, initial, account)
    ensures Accounted(Next(w, s).db, initial, account)
  {
    hide Credits, Logged, Landed;
    if s.Advance? && s.handler < |w.handlers| {
      var h := w.handlers[s.handler];
      assert Placed(w, s.handler);
      match h.place
      case LookedUp => CreditsOfOneMore(w.db.rows, RowOf(h.report), account);
      case Recorded(row) => CreditIsAccounted(w.db, row, initial, account);
      case AtStart | Ended =>
    }
  }

  ghost function Run(w: World, steps: seq<Step>): (r: World)
    requires Sound(w)
    ensures Sound(r)
    decreases |steps|
  {
    if steps == [] then w
    else
      SoundStep(w, steps[0]);
      Run(Next(w, steps[0]), steps[1..])
  }

  function Fresh(accounts: set<nat>, balances: map<nat, real>): (r: World)
  {
    World(Db(accounts, balances, [], []), [])
  }

  lemma {:induction false} AccountedRun(w: World, steps: seq<Step>, initial: map<nat, real>, account: nat)
    requires Sound(w) && Accounted(w.db, initial, account)
    ensures Accounted(Run(w, steps).db, initial, account)
    decreases |steps|
  {
    if steps != [] {
      hide Accounted, Sound, Next;
      SoundStep(w, steps[0]);
      AccountedStep(w, steps[0], initial, account);
      AccountedRun(Next(w, steps[0]), steps[1..], initial, account);
    }
  }

  /** A step that credits a deposit of the account while the account has no balance to add it to. */
  ghost predicate CreditsTooEarly(w: World, s: Step, account: nat)
    requires AllPlaced(w)
  {
    && s.Advance? && s.handler < |w.handlers| && w.handlers[s.handler].place.Recorded?
    && Placed(w, s.handler)
    && w.db.rows[w.handlers[s.handler].place.row].account == account && account !in w.db.balances
  }

  ghost function EarlyCredits(w: World, steps: seq<Step>, account: nat): (r: nat)
    requires Sound(w)
    decreases |steps|
  {
    if steps == [] then 0
    else
      SoundStep(w, steps[0]);
      (if CreditsTooEarly(w, steps[0], account) then 1 else 0) + EarlyCredits(Next(w, steps[0]), steps[1..], account)
  }

  /** The log's entries that found no balance: how many, and what they come to. */
  function Missed(log: seq<Entry>, account: nat): (r: nat)
  {
    if log == [] then 0
    else
      var e := log[|log| - 1];
      Missed(log[..|log| - 1], account) + if e.account == account && !e.landed then 1 else 0
  }

  function Lost(log: seq<Entry>, account: nat): (r: real)
  {
    if log == [] then 0.0
    else
      var e := log[|log| - 1];
      Lost(log[..|log| - 1], account) + if e.account == account && !e.landed then e.amount else 0.0
  }

  lemma {:induction false} LandedOrLost(log: seq<Entry>, account: nat)
    ensures Logged(log, account) == Landed(log, account) + Lost(log, account)
  {
    if log != [] {
      LandedOrLost(log[..|log| - 1], account);
    }
  }

  lemma {:induction false} LostIfMissed(log: seq<Entry>, account: nat)
    requires forall e :: e in log ==> e.amount > 0.0
    ensures Lost(log, account) >= 0.0 && (Lost(log, account) == 0.0 <==> Missed(log, account) == 0)
  {
    if log != [] {
      LostIfMissed(log[..|log| - 1], account);
      assert log[|log| - 1] in log;
    }
  }

  /** Only deposits of something are reported, recorded and logged. */
  ghost predicate AllPositive(w: World)
  {
    && (forall h :: h in w.handlers ==> h.report.amount > 0.0)
    && (forall d :: d in w.db.rows ==> d.amount > 0.0)
    && (forall e :: e in w.db.log ==> e.amount > 0.0)
  }

  lemma MissedOfOneMore(log: seq<Entry>, e: Entry, account: nat)
    ensures Missed(log + [e], account) == Missed(log, account) + if e.account == account && !e.landed then 1 else 0
  {
    assert (log + [e])[..|log|] == log;
  }

  lemma MissedStep(w: World, s: Step, account: nat)
    requires Sound(w) && AllPositive(w) && (s.Deliver? ==> s.report.amount > 0.0)
    ensures AllPositive(Next(w, s))
    ensures Missed(Next(w, s).db.log, account) ==
            Missed(w.db.log, account) + if CreditsTooEarly(w, s, account) then 1 else 0
  {
    hide Missed;
    if s.Advance? && s.handler < |w.handlers| {
      var h := w.handlers[s.handler];
      assert Placed(w, s.handler) && h in w.handlers;
      if h.place.Recorded? {
        var d := w.db.rows[h.place.row];
        assert d in w.db.rows;
        MissedOfOneMore(w.db.log, Entry(h.place.row, d.account, d.amount, d.account in w.db.balances), account);
      }
    }
  }

  lemma {:induction false} MissedRun(w: World, steps: seq<Step>, account: nat)
    requires Sound(w) && AllPositive(w) && forall p :: Deliver(p) in steps ==> p.amount > 0.0
    ensures AllPositive(Run(w, steps))
    ensures Missed(Run(w, steps).db.log, account) == Missed(w.db.log, account) + EarlyCredits(w, steps, account)
    decreases |steps|
  {
    hide AllPositive, UniqueTx, LoggedOnce, Next, Missed, CreditsTooEarly;
    if steps != [] {
      SoundStep(w, steps[0]);
      assert steps[0].Deliver? ==> Deliver(steps[0].report) in steps;
      MissedStep(w, steps[0], account);
      MissedRun(Next(w, steps[0]), steps[1..], account);
    }
  }

  /**
   Over every interleaving, crashes included: no transaction is credited twice, and every account
   that has a balance in the end has on it what it had at first, nothing if it was opened later, plus
   what landed, which is what was credited less what was lost.
   */
  lemma CreditedAtMostOnce(accounts: set<nat>, balances: map<nat, real>, steps: seq<Step>)
    ensures var db := Run(Fresh(accounts, balances), steps).db;
            && (forall e, f :: 0 <= e < f < |db.log| ==>
                  db.log[e].row < |db.rows| && db.log[f].row < |db.rows| &&
                  db.rows[db.log[e].row].tx != db.rows[db.log[f].row].tx)
            && (forall a :: a in db.balances ==>
                  && db.balances[a] == At(balances, a) + Landed(db.log, a)
                  && Landed(db.log, a) + Lost(db.log, a) == Credits(db.rows, a))
  {
    var db := Run(Fresh(accounts, balances), steps).db;
    forall a | a in db.balances
      ensures db.balances[a] == At(balances, a) + Landed(db.log, a)
      ensures Landed(db.log, a) + Lost(db.log, a) == Credits(db.rows, a)
    {
      AccountedRun(Fresh(accounts, balances), steps, balances, a);
      LandedOrLost(db.log, a);
    }
    forall e, f | 0 <= e < f < |db.log|
      ensures db.log[e].row < |db.rows| && db.log[f].row < |db.rows|
      ensures db.rows[db.log[e].row].tx != db.rows[db.log[f].row].tx
    {
      var r, s := db.log[e].row, db.log[f].row;
      assert r < s || s < r;
    }
  }

  /**
   An account's balance accounts for all its credited deposits exactly if none of them was credited
   while the account had no balance yet.
   */
  lemma BalanceIsCompleteExactly(accounts: set<nat>, balances: map<nat, real>, steps: seq<Step>, a: nat)
    requires forall p :: Deliver(p) in steps ==> p.amount > 0.0
    requires a in Run(Fresh(accounts, balances), steps).db.balances
    ensures var db := Run(Fresh(accounts, balances), steps).db;
            db.balances[a] == At(balances, a) + Credits(db.rows, a) <==>
            EarlyCredits(Fresh(accounts, balances), steps, a) == 0
  {
    hide AllPositive, Run, EarlyCredits;
    var w := Fresh(accounts, balances);
    var db := Run(w, steps).db;
    assert AllPositive(w) by { NothingYetIsPositive(accounts, balances); }
    MissedRun(w, steps, a);
    CreditedAtMostOnce(accounts, balances, steps);
    LogIsPositive(Run(w, steps));
    LostIfMissed(db.log, a);
  }

  lemma NothingYetIsPositive(accounts: set<nat>, balances: map<nat, real>)
    ensures AllPositive(Fresh(accounts, balances))
  {
  }

  lemma LogIsPositive(w: World)
    requires AllPositive(w)
    ensures forall e :: e in w.db.log ==> e.amount > 0.0
  {
  }

  /** So an account that had a balance from the start never loses a deposit. */
  lemma {:induction false} NoneEarlyWithABalance(w: World, steps: seq<Step>, a: nat)
    requires Sound(w) && a in w.db.balances
    ensures EarlyCredits(w, steps, a) == 0 && a in Run(w, steps).db.balances
    decreases |steps|
  {
    if steps != [] {
      SoundStep(w, steps[0]);
      KeepsItsBalance(w, steps[0], a);
      NoneEarlyWithABalance(Next(w, steps[0]), steps[1..], a);
    }
  }

  lemma KeepsItsBalance(w: World, s: Step, a: nat)
    requires Sound(w) && a in w.db.balances
    ensures a in Next(w, s).db.balances && !CreditsTooEarly(w, s, a)
  {
    if s.Advance? && s.handler < |w.handlers| {
      assert Placed(w, s.handler);
    }
  }

  /** A deposit that is lost: it is credited in full before the account's balance is opened. */
  lemma OpenedTooLate()
    ensures var steps := [Deliver(Report(Some(1), "tx", 5.0, AssetHub)), Advance(0), Advance(0), Advance(0)];
            var w := Run(Fresh({1}, map[]), steps);
            && Credits(w.db.rows, 1) == 5.0
            && Next(w, OpenCredits(1)).db.balances == map[1 := 0.0]
            && Next(w, OpenCredits(1)).db.rows == w.db.rows
  {
    var p := Report(Some(1), "tx", 5.0, AssetHub);
    var db := Db({1}, map[], [], []);
    AloneIsHandled(db, p);
    var row := Deposit(1, "tx", 5.0, Credited);
    assert Handled(db, p).0.rows == [row];
    assert [row][..0] == [];
    assert Credits([row], 1) == 5.0;
  }

  /** A recorded deposit that no handler is about to credit. */
  ghost predicate Orphaned(w: World, row: nat)
  {
    && row < |w.db.rows| && !w.db.rows[row].status.Credited?
    && forall i :: 0 <= i < |w.handlers| ==> w.handlers[i].place != Recorded(row)
  }

  lemma OrphanStep(w: World, s: Step, row: nat)
    requires Sound(w) && Orphaned(w, row)
    ensures Orphaned(Next(w, s), row) && Next(w, s).db.rows[row] == w.db.rows[row]
  {
    if s.Advance? && s.handler < |w.handlers| {
      assert Placed(w, s.handler);
      assert w.handlers[s.handler].place != Recorded(row);
    }
  }

  /** The price of a crash between recording and crediting: the deposit is never credited, however often reported. */
  lemma {:induction false} OrphansStay(w: World, steps: seq<Step>, row: nat)
    requires Sound(w) && Orphaned(w, row)
    ensures Orphaned(Run(w, steps), row) && Run(w, steps).db.rows[row] == w.db.rows[row]
    decreases |steps|
  {
    if steps != [] {
      SoundStep(w, steps[0]);
      OrphanStep(w, steps[0], row);
      hide Orphaned, Sound, Next;
      OrphansStay(Next(w, steps[0]), steps[1..], row);
    }
  }

  /** A crash orphans a row if, and only if, it hits the handler that has recorded it and not yet credited it. */
  lemma CrashOrphans(w: World, i: nat, row: nat)
    requires Sound(w) && i < |w.handlers| && row < |w.db.rows| && !w.db.rows[row].status.Credited?
    requires !Orphaned(w, row)
    ensures Orphaned(Next(w, Crash(i)), row) <==> w.handlers[i].place == Recorded(row)
  {
    var k :| 0 <= k < |w.handlers| && w.handlers[k].place == Recorded(row);
    var v := Next(w, Crash(i));
    assert Placed(w, k);
    if k != i {
      assert v.handlers[k].place == Recorded(row);
    }
  }

  /** A deposit first recorded by hand is never credited, whatever else is under way or reported later. */
  lemma ManualRecordBlocks(w: World, i: nat, p: Report, steps: seq<Step>)
    requires Sound(w) && i < |w.handlers| && w.handlers[i] == Handler(p, LookedUp)
    requires p.source.Manual? && p.account.Some? && Insert(w.db, RowOf(p)).Some?
    ensures var after := Run(w, [Advance(i)] + steps);
            |w.db.rows| < |after.db.rows| && after.db.rows[|w.db.rows|] == RowOf(p)
  {
    var v := Next(w, Advance(i));
    SoundStep(w, Advance(i));
    forall j | 0 <= j < |w.handlers|
      ensures v.handlers[j].place != Recorded(|w.db.rows|)
    {
      assert Placed(w, j);
    }
    assert ([Advance(i)] + steps)[1..] == steps;
    OrphansStay(v, steps, |w.db.rows|);
  }

  /** One handler left alone does what the method does, so what is proved of steps is proved of it. */
  lemma AloneIsHandled(db: Db, p: Report)
    requires Sound(World(db, []))
    ensures var w := Run(World(db, []), [Deliver(p), Advance(0), Advance(0), Advance(0)]);
            w.db == Handled(db, p).0 && w.handlers == [Handler(p, Ended)]
  {
    var w0 := World(db, []);
    var w1 := Next(w0, Deliver(p));
    SoundStep(w0, Deliver(p));
    assert w1.handlers == [Handler(p, AtStart)];
    var w2 := Next(w1, Advance(0));
    SoundStep(w1, Advance(0));
    assert Placed(w1, 0);
    var w3 := Next(w2, Advance(0));
    SoundStep(w2, Advance(0));
    assert Placed(w2, 0);
    var w4 := Next(w3, Advance(0));
    SoundStep(w3, Advance(0));
    assert Placed(w3, 0);
    FourSteps(w0, Deliver(p), Advance(0), Advance(0), Advance(0));
  }

  lemma FourSteps(w: World, a: Step, b: Step, c: Step, d: Step)
    requires Sound(w)
    ensures Sound(Next(w, a)) && Sound(Next(Next(w, a), b)) && Sound(Next(Next(Next(w, a), b), c))
    ensures Run(w, [a, b, c, d]) == Next(Next(Next(Next(w, a), b), c), d)
  {
    hide Next;
    assert [a, b, c, d] == [a] + [b, c, d] && [b, c, d] == [b] + [c, d] && [c, d] == [c] + [d];
    SoundStep(w, a);
    SoundStep(Next(w, a), b);
    SoundStep(Next(Next(w, a), b), c);
    OneStep(w, a, [b, c, d]);
    OneStep(Next(w, a), b, [c, d]);
    OneStep(Next(Next(w, a), b), c, [d]);
    OneStep(Next(Next(Next(w, a), b), c), d, []);
  }

  lemma OneStep(w: World, s: Step, steps: seq<Step>)
    requires Sound(w)
    ensures Sound(Next(w, s)) && Run(w, [s] + steps) == Run(Next(w, s), steps)
    ensures steps == [] ==> Run(w, [s]) == Next(w, s)
  {
    SoundStep(w, s);
    assert ([s] + steps)[1..] == steps;
    assert steps == [] ==> [s] + steps == [s];
  }
}
