/**
 TXT balances: credits, charges split between the custodial balance and a payment channel, and
 withdrawals that deduct first and give back when sending fails.

 Balances are rows of a table, changed in place by single statements. The books kept beside them
 list every entry, so that a balance can be compared with what led to it.
 */
module Billing {
  import opened Wrappers
  import opened ChannelEvents
  import opened Sono

  const I64_MAX: int := 0x7FFF_FFFF_FFFF_FFFF

  type UserId = nat

  datatype ApiError = InsufficientBalance | InternalError | InvalidRequest

  datatype WithdrawalStatus = InFlight | Sent | Returned | Lost

  /**
   What becomes of a transfer: it is carried out; it has a receipt, but was reverted, which the program
   does not ask; it is carried out, but its receipt is not to be had, which the program takes for a
   failure; or it is not sent.
   */
  datatype Transfer = CarriedOut | Reverted | WithoutReceipt | NotSent {
    predicate HasReceipt() { CarriedOut? || Reverted? }

    predicate WentOut() { CarriedOut? || WithoutReceipt? }
  }

  /** `wentOut` is whether the chain carried the withdrawal out. */
  datatype Entry =
    | Credited(user: UserId, amount: int)
    | Charged(user: UserId, amount: int)
    | Withdrawn(user: UserId, amount: int, status: WithdrawalStatus, wentOut: bool)

  datatype Book = Book(balances: map<UserId, int>, entries: seq<Entry>)

  // ---------------------------------------------------------------------------------------------
  // The books
  // ---------------------------------------------------------------------------------------------

  /** What an entry adds to its user's balance: a withdrawal counts until it is returned. */
  function Effect(e: Entry): (r: int)
  {
    match e
    case Credited(_, a) => a
    case Charged(_, a) => -a
    case Withdrawn(_, a, status, _) => if status == Returned then 0 else -a
  }

  function Total(entries: seq<Entry>, u: UserId): (r: int)
  {
    if entries == [] then 0
    else Total(entries[..|entries| - 1], u) + (var e := entries[|entries| - 1]; if e.user == u then Effect(e) else 0)
  }

  lemma TotalSnoc(entries: seq<Entry>, e: Entry, u: UserId)
    ensures Total(entries + [e], u) == Total(entries, u) + if e.user == u then Effect(e) else 0
  {
    assert (entries + [e])[..|entries|] == entries;
  }

  lemma {:induction false} TotalUpdate(entries: seq<Entry>, i: nat, e: Entry, u: UserId)
    requires i < |entries| && e.user == entries[i].user
    ensures Total(entries[i := e], u) == Total(entries, u) + if e.user == u then Effect(e) - Effect(entries[i]) else 0
  {
    var n := |entries| - 1;
    if i == n {
      assert entries[i := e][..n] == entries[..n];
    } else {
      TotalUpdate(entries[..n], i, e, u);
      assert entries[i := e][..n] == entries[..n][i := e];
    }
  }

  /** Every balance is what its opening balance and its entries make it, and none is negative. */
  ghost predicate Balanced(opening: map<UserId, int>, b: Book)
  {
    && b.balances.Keys == opening.Keys
    && (forall u :: u in opening ==> b.balances[u] == opening[u] + Total(b.entries, u) && b.balances[u] >= 0)
  }

  // ---------------------------------------------------------------------------------------------
  // Steps on the books
  // ---------------------------------------------------------------------------------------------

  /** `Finish(i, transfer)` ends withdrawal `i`; `stored` says whether the database took the step's last statement. */
  datatype Op =
    | Credit(user: UserId, amount: int, stored: bool)
    | Debit(user: UserId, amount: int)
    | Begin(user: UserId, amount: int)
    | Finish(i: nat, transfer: Transfer, stored: bool)

  function Add(b: Book, u: UserId, delta: int, e: Entry): (r: Book)
    requires u in b.balances
  {
    Book(b.balances[u := b.balances[u] + delta], b.entries + [e])
  }

  /** A credit is one transaction: it fails as a whole, also when the sum leaves 64 bits. */
  predicate CreditGoesThrough(b: Book, u: UserId, amount: int, stored: bool)
  {
    u in b.balances && stored && b.balances[u] + amount <= I64_MAX
  }

  function Post(b: Book, op: Op): (r: Book)
  {
    match op
    case Credit(u, a, stored) =>
      if CreditGoesThrough(b, u, a, stored) then Add(b, u, a, Credited(u, a)) else b
    case Debit(u, a) =>
      if u in b.balances && 0 < a <= b.balances[u] then Add(b, u, -a, Charged(u, a)) else b
    case Begin(u, a) =>
      if u in b.balances && 0 < a <= b.balances[u] then Add(b, u, -a, Withdrawn(u, a, InFlight, false)) else b
    case Finish(i, transfer, stored) =>
      if i >= |b.entries| || !b.entries[i].Withdrawn? || b.entries[i].status != InFlight then b
      else
        var e := b.entries[i].(wentOut := transfer.WentOut());
        if transfer.HasReceipt() then b.(entries := b.entries[i := e.(status := Sent)])
        else if CreditGoesThrough(b, e.user, e.amount, stored) then
          Book(b.balances[e.user := b.balances[e.user] + e.amount], b.entries[i := e.(status := Returned)])
        else b.(entries := b.entries[i := e.(status := Lost)])
  }

  function PostAll(b: Book, ops: seq<Op>): (r: Book)
    decreases |ops|
  {
    if ops == [] then b else PostAll(Post(b, ops[0]), ops[1..])
  }

  lemma PostTwo(b: Book, first: Op, second: Op)
    ensures PostAll(b, [first, second]) == Post(Post(b, first), second)
  {
    var b1 := Post(b, first);
    assert [second][1..] == [];
    assert PostAll(b1, [second]) == PostAll(Post(b1, second), []);
    assert [first, second][1..] == [second];
  }

  predicate WithdrawalsPositive(entries: seq<Entry>)
  {
    forall i :: 0 <= i < |entries| && entries[i].Withdrawn? ==> entries[i].amount > 0
  }

  lemma AddKeeps(opening: map<UserId, int>, b: Book, u: UserId, delta: int, e: Entry)
    requires Balanced(opening, b) && WithdrawalsPositive(b.entries)
    requires u in b.balances && e.user == u && Effect(e) == delta && b.balances[u] + delta >= 0
    requires e.Withdrawn? ==> e.amount > 0
    ensures Balanced(opening, Add(b, u, delta, e)) && WithdrawalsPositive(Add(b, u, delta, e).entries)
  {
    hide Total, Effect;
    var b' := Add(b, u, delta, e);
    forall v | v in opening
      ensures b'.balances[v] == opening[v] + Total(b'.entries, v) && b'.balances[v] >= 0
    {
      TotalSnoc(b.entries, e, v);
    }
  }

  lemma ReplaceKeeps(opening: map<UserId, int>, b: Book, i: nat, e: Entry, balances: map<UserId, int>)
    requires Balanced(opening, b) && WithdrawalsPositive(b.entries)
    requires i < |b.entries| && e.user == b.entries[i].user && (e.Withdrawn? ==> e.amount > 0)
    requires balances == if e.user in b.balances
                         then b.balances[e.user := b.balances[e.user] + Effect(e) - Effect(b.entries[i])]
                         else b.balances
    requires Effect(e) >= Effect(b.entries[i])
    ensures Balanced(opening, Book(balances, b.entries[i := e])) && WithdrawalsPositive(b.entries[i := e])
  {
    hide Total, Effect;
    forall v | v in opening
      ensures balances[v] == opening[v] + Total(b.entries[i := e], v) && balances[v] >= 0
    {
      TotalUpdate(b.entries, i, e, v);
    }
  }

  lemma BalancesAreNotNegative(opening: map<UserId, int>, b: Book)
    requires Balanced(opening, b) && WithdrawalsPositive(b.entries)
    ensures forall u :: u in b.balances ==> b.balances[u] >= 0
    ensures forall i :: 0 <= i < |b.entries| && b.entries[i].Withdrawn? ==> b.entries[i].amount > 0
  {
  }

  lemma PostKeeps(opening: map<UserId, int>, b: Book, op: Op)
    requires Balanced(opening, b) && WithdrawalsPositive(b.entries)
    requires op.Credit? ==> op.amount >= 0
    ensures Balanced(opening, Post(b, op)) && WithdrawalsPositive(Post(b, op).entries)
  {
    hide Total, Balanced, WithdrawalsPositive;
    BalancesAreNotNegative(opening, b);
    var b' := Post(b, op);
    match op {
      case Credit(u, a, stored) =>
        if CreditGoesThrough(b, u, a, stored) { AddKeeps(opening, b, u, a, Credited(u, a)); }
      case Debit(u, a) =>
        if u in b.balances && 0 < a <= b.balances[u] { AddKeeps(opening, b, u, -a, Charged(u, a)); }
      case Begin(u, a) =>
        if u in b.balances && 0 < a <= b.balances[u] { AddKeeps(opening, b, u, -a, Withdrawn(u, a, InFlight, false)); }
      case Finish(i, transfer, stored) =>
        if i < |b.entries| && b.entries[i].Withdrawn? && b.entries[i].status == InFlight {
          var e := b'.entries[i];
          assert b.balances == if e.user in b.balances then b.balances[e.user := b.balances[e.user]] else b.balances;
          ReplaceKeeps(opening, b, i, e, b'.balances);
        }
    }
  }

  /**
   Over every run of credits, charges and withdrawals, with any number of withdrawals under way at
   once, every balance is its opening balance plus credits minus charges minus withdrawals not
   given back, and is never negative.
   */
  lemma {:induction false} BooksAlwaysBalance(opening: map<UserId, int>, b: Book, ops: seq<Op>)
    requires Balanced(opening, b) && WithdrawalsPositive(b.entries)
    requires forall op :: op in ops && op.Credit? ==> op.amount >= 0
    ensures Balanced(opening, PostAll(b, ops))
    decreases |ops|
  {
    if ops != [] {
      PostKeeps(opening, b, ops[0]);
      BooksAlwaysBalance(opening, Post(b, ops[0]), ops[1..]);
    }
  }

  // ---------------------------------------------------------------------------------------------
  // Balances and the chain
  // ---------------------------------------------------------------------------------------------

  /** What an entry should add: a withdrawal counts while it is under way, and then if it went out. */
  function Due(e: Entry): (r: int)
  {
    if e.Withdrawn? then (if e.status.InFlight? || e.wentOut then -e.amount else 0) else Effect(e)
  }

  function TotalDue(entries: seq<Entry>, u: UserId): (r: int)
  {
    if entries == [] then 0
    else TotalDue(entries[..|entries| - 1], u) + (var e := entries[|entries| - 1]; if e.user == u then Due(e) else 0)
  }

  predicate PaidTwice(e: Entry)
  {
    e.Withdrawn? && e.status.Returned? && e.wentOut
  }

  predicate NeverPaid(e: Entry)
  {
    e.Withdrawn? && (e.status.Lost? || e.status.Sent?) && !e.wentOut
  }

  /** The amounts that were given back although they went out, and those that neither went out nor were given back. */
  function TotalPaidTwice(entries: seq<Entry>, u: UserId): (r: int)
  {
    if entries == [] then 0
    else
      var e := entries[|entries| - 1];
      TotalPaidTwice(entries[..|entries| - 1], u) + if e.user == u && PaidTwice(e) then e.amount else 0
  }

  function TotalNeverPaid(entries: seq<Entry>, u: UserId): (r: int)
  {
    if entries == [] then 0
    else
      var e := entries[|entries| - 1];
      TotalNeverPaid(entries[..|entries| - 1], u) + if e.user == u && NeverPaid(e) then e.amount else 0
  }

  lemma {:induction false} TotalIsOff(entries: seq<Entry>, u: UserId)
    ensures Total(entries, u) == TotalDue(entries, u) + TotalPaidTwice(entries, u) - TotalNeverPaid(entries, u)
  {
    if entries != [] {
      TotalIsOff(entries[..|entries| - 1], u);
    }
  }

  /**
   Over every run a balance is what is due, by credits, charges and the withdrawals that went out, plus
   what was given back although it went out, less what neither went out nor was given back. So it is what
   is due exactly if these two come to the same, as they do when there is neither.
   */
  lemma BalanceIsDueExactly(opening: map<UserId, int>, ops: seq<Op>, u: UserId)
    requires u in opening && (forall v :: v in opening ==> opening[v] >= 0)
    requires forall op :: op in ops && op.Credit? ==> op.amount >= 0
    ensures var b := PostAll(Book(opening, []), ops);
            && u in b.balances
            && b.balances[u] == opening[u] + TotalDue(b.entries, u)
                                + TotalPaidTwice(b.entries, u) - TotalNeverPaid(b.entries, u)
            && (b.balances[u] == opening[u] + TotalDue(b.entries, u) <==>
                TotalPaidTwice(b.entries, u) == TotalNeverPaid(b.entries, u))
  {
    hide Post, PostAll, TotalDue, TotalPaidTwice, TotalNeverPaid;
    var b := Book(opening, []);
    BooksAlwaysBalance(opening, b, ops);
    TotalIsOff(PostAll(b, ops).entries, u);
  }

  /** A withdrawal ends wrong: it is given back although it went out, or does neither. */
  predicate EndsWrong(b: Book, op: Op)
  {
    && op.Finish? && op.i < |b.entries| && b.entries[op.i].Withdrawn? && b.entries[op.i].status.InFlight?
    && var e := b.entries[op.i];
    || op.transfer.Reverted?
    || (if CreditGoesThrough(b, e.user, e.amount, op.stored) then op.transfer.WithoutReceipt? else op.transfer.NotSent?)
  }

  predicate SomeEndsWrong(b: Book, ops: seq<Op>)
    decreases |ops|
  {
    ops != [] && (EndsWrong(b, ops[0]) || SomeEndsWrong(Post(b, ops[0]), ops[1..]))
  }

  predicate NoneWrong(entries: seq<Entry>)
  {
    forall i :: 0 <= i < |entries| ==> !PaidTwice(entries[i]) && !NeverPaid(entries[i])
  }

  lemma WrongStep(b: Book, op: Op)
    ensures NoneWrong(Post(b, op).entries) <==> NoneWrong(b.entries) && !EndsWrong(b, op)
  {
    var entries := Post(b, op).entries;
    if op.Finish? && op.i < |b.entries| && b.entries[op.i].Withdrawn? && b.entries[op.i].status.InFlight? {
      assert !PaidTwice(b.entries[op.i]) && !NeverPaid(b.entries[op.i]);
      assert forall k :: 0 <= k < |entries| && k != op.i ==> entries[k] == b.entries[k];
      assert EndsWrong(b, op) <==> PaidTwice(entries[op.i]) || NeverPaid(entries[op.i]);
    } else {
      assert forall k :: 0 <= k < |b.entries| ==> entries[k] == b.entries[k];
    }
  }

  lemma {:induction false} WrongRun(b: Book, ops: seq<Op>)
    ensures NoneWrong(PostAll(b, ops).entries) <==> NoneWrong(b.entries) && !SomeEndsWrong(b, ops)
    decreases |ops|
  {
    hide Post, NoneWrong, EndsWrong;
    if ops != [] {
      WrongStep(b, ops[0]);
      WrongRun(Post(b, ops[0]), ops[1..]);
    }
  }

  /** Each entry counts for what is due exactly if no withdrawal of the run ends wrong. */
  lemma EachCountsAsDueExactly(opening: map<UserId, int>, ops: seq<Op>)
    requires (forall v :: v in opening ==> opening[v] >= 0) && (forall op :: op in ops && op.Credit? ==> op.amount >= 0)
    ensures var entries := PostAll(Book(opening, []), ops).entries;
            (forall e :: e in entries ==> Effect(e) == Due(e)) <==> !SomeEndsWrong(Book(opening, []), ops)
  {
    hide Post, PostAll, SomeEndsWrong;
    var b := Book(opening, []);
    BooksPositive(opening, b, ops);
    WrongRun(b, ops);
    var entries := PostAll(b, ops).entries;
    forall i | 0 <= i < |entries|
      ensures Effect(entries[i]) == Due(entries[i]) <==> !PaidTwice(entries[i]) && !NeverPaid(entries[i])
    {
    }
    assert forall i :: 0 <= i < |entries| ==> entries[i] in entries;
  }

  lemma {:induction false} BooksPositive(opening: map<UserId, int>, b: Book, ops: seq<Op>)
    requires Balanced(opening, b) && WithdrawalsPositive(b.entries)
    requires forall op :: op in ops && op.Credit? ==> op.amount >= 0
    ensures WithdrawalsPositive(PostAll(b, ops).entries)
    decreases |ops|
  {
    hide Post, Balanced, WithdrawalsPositive;
    if ops != [] {
      PostKeeps(opening, b, ops[0]);
      BooksPositive(opening, Post(b, ops[0]), ops[1..]);
    }
  }

  /** A transfer that goes out and whose receipt is not to be had: 5 are on the chain, and the balance is as before. */
  lemma WithoutReceiptIsPaidTwice()
    ensures var b := PostAll(Book(map[1 := 5], []), [Begin(1, 5), Finish(0, WithoutReceipt, true)]);
            b == Book(map[1 := 5], [Withdrawn(1, 5, Returned, true)])
  {
    PostTwo(Book(map[1 := 5], []), Begin(1, 5), Finish(0, WithoutReceipt, true));
  }

  // ---------------------------------------------------------------------------------------------
  // Cover
  // ---------------------------------------------------------------------------------------------

  function Max0(n: int): (r: nat)
  {
    if n > 0 then n else 0
  }

  /** `try_into().unwrap_or(i64::MAX)`. */
  function Clamp(n: nat): (r: nat)
  {
    if n <= I64_MAX then n else I64_MAX
  }

  /** The wallet text of a request: the channel address it stands for, or text that stands for none. */
  datatype Wallet = Valid(address: Address) | Malformed

  /** What the payment channel can still pay, if there is a service, a wallet and a channel. */
  ghost function ChannelCover(sono: SonoService?, wallet: Option<Wallet>): (r: nat)
    reads sono
  {
    if sono == null || wallet.None? || wallet.value.Malformed? || wallet.value.address !in sono.channels then 0
    else RemainingOf(sono.channels[wallet.value.address])
  }

  /** Deposits are 256-bit numbers. */
  ghost predicate ChannelsInRange(sono: SonoService?)
    reads sono
  {
    sono != null ==> forall a :: a in sono.channels ==> sono.channels[a].deposit < U256_RANGE
  }

  datatype ChargeResult = ChargeResult(fromCustodial: int, fromChannel: int)

  // ---------------------------------------------------------------------------------------------
  // The service as the source runs it
  // ---------------------------------------------------------------------------------------------

  class Ledger {
    var txtBalance: map<UserId, int>
    ghost var entries: seq<Entry>

    ghost function Books(): Book
      reads this
    {
      Book(txtBalance, entries)
    }

    constructor (txtBalance: map<UserId, int>)
      ensures Books() == Book(txtBalance, [])
    {
      this.txtBalance := txtBalance;
      entries := [];
    }

    /**
     A positive cost is charged exactly when the custodial balance and the channel cover it
     together, counted as the balance report counts them; the custodial balance pays first. On
     failure nothing has changed.
     */
    method CheckAndCharge(sono: SonoService?, user: UserId, wallet: Option<Wallet>, txtCost: int)
      returns (r: Result<ChargeResult, ApiError>)
      requires txtCost <= I64_MAX && ChannelsInRange(sono)
      modifies this, sono
      ensures txtCost <= 0 ==> r == Ok(ChargeResult(0, 0))
      ensures txtCost > 0 ==>
                var custodial := if user in old(txtBalance) then old(txtBalance)[user] else 0;
                && (r.Ok? <==> Max0(custodial) + Clamp(old(ChannelCover(sono, wallet))) >= txtCost)
                && (r.Ok? ==> r.value == ChargeResult(if custodial >= txtCost then txtCost else Max0(custodial),
                                                      txtCost - if custodial >= txtCost then txtCost
                                                                 else Max0(custodial)))
                && (r.Err? ==> r.error == InsufficientBalance)
      ensures Books() == if r.Ok? && r.value.fromCustodial > 0
                         then Post(old(Books()), Debit(user, r.value.fromCustodial)) else old(Books())
      ensures r.Ok? && r.value.fromChannel > 0 ==>
                && sono != null && wallet.Some? && wallet.value.Valid? && wallet.value.address in old(sono.channels)
                && var a := wallet.value.address;
                && sono.channels.Keys == old(sono.channels).Keys
                && sono.channels[a].spent == old(sono.channels)[a].spent + r.value.fromChannel
                && sono.channels == old(sono.channels)[a := sono.channels[a]]
                && sono.channels[a].deposit == old(sono.channels)[a].deposit
      ensures (r.Err? || r.value.fromChannel == 0) && sono != null ==> sono.channels == old(sono.channels)
    {
      if txtCost <= 0 {
        return Ok(ChargeResult(0, 0));
      }
      var custodialBalance := if user in txtBalance then txtBalance[user] else 0;
      if custodialBalance >= txtCost {
        txtBalance := txtBalance[user := txtBalance[user] - txtCost];
        entries := entries + [Charged(user, txtCost)];
        return Ok(ChargeResult(txtCost, 0));
      }
      if sono != null && wallet.Some? {
        if wallet.value.Malformed? {
          return Err(InsufficientBalance);
        }
        var address := wallet.value.address;
        var channelRemaining := sono.Remaining(address);
        if custodialBalance > 0 {
          var fromChannel := txtCost - custodialBalance;
          if channelRemaining >= fromChannel {
            ChargeUsesRemaining(sono.channels[address], fromChannel);
            txtBalance := txtBalance[user := 0];
            entries := entries + [Charged(user, custodialBalance)];
            var charged := sono.Charge(address, fromChannel);
            return Ok(ChargeResult(custodialBalance, fromChannel));
          }
        }
        if channelRemaining >= txtCost {
          ChargeUsesRemaining(sono.channels[address], txtCost);
          var charged := sono.Charge(address, txtCost);
          return Ok(ChargeResult(0, txtCost));
        }
      }
      r := Err(InsufficientBalance);
    }

    method TotalBalance(sono: SonoService?, user: UserId, wallet: Option<Wallet>) returns (custodial: int, channel: int)
      ensures custodial == if user in txtBalance then txtBalance[user] else 0
      ensures channel == Clamp(ChannelCover(sono, wallet))
    {
      custodial := if user in txtBalance then txtBalance[user] else 0;
      channel := 0;
      if sono != null && wallet.Some? && wallet.value.Valid? {
        var remaining := sono.Remaining(wallet.value.address);
        channel := if remaining <= I64_MAX then remaining else I64_MAX;
      }
    }

    /** `stored` is whether the database takes the statements of the transaction. */
    method CreditTxt(user: UserId, txtAmount: int, stored: bool) returns (r: Result<int, ApiError>)
      modifies this
      ensures Books() == Post(old(Books()), Credit(user, txtAmount, stored))
      ensures r == if CreditGoesThrough(old(Books()), user, txtAmount, stored)
                   then Ok(old(txtBalance)[user] + txtAmount) else Err(InternalError)
    {
      if user !in txtBalance || !stored || txtBalance[user] + txtAmount > I64_MAX {
        return Err(InternalError);
      }
      txtBalance := txtBalance[user := txtBalance[user] + txtAmount];
      entries := entries + [Credited(user, txtAmount)];
      r := Ok(txtBalance[user]);
    }

    /** The guarded deduction a withdrawal starts with; `i` is its entry in the books. */
    method BeginWithdrawal(user: UserId, amount: int) returns (r: Result<int, ApiError>, ghost i: nat)
      requires amount > 0
      modifies this
      ensures Books() == Post(old(Books()), Begin(user, amount))
      ensures i == |old(entries)|
      ensures r == if user in old(txtBalance) && old(txtBalance)[user] >= amount
                   then Ok(old(txtBalance)[user] - amount) else Err(InsufficientBalance)
    {
      i := |entries|;
      if user !in txtBalance || txtBalance[user] < amount {
        return Err(InsufficientBalance), i;
      }
      txtBalance := txtBalance[user := txtBalance[user] - amount];
      entries := entries + [Withdrawn(user, amount, InFlight, false)];
      r := Ok(txtBalance[user]);
    }

    /** After the transfer: nothing more with a receipt, otherwise the amount is given back if the database takes it. */
    method FinishWithdrawal(user: UserId, amount: int, ghost i: nat, transfer: Transfer, stored: bool)
      requires i < |entries| && entries[i] == Withdrawn(user, amount, InFlight, false)
      modifies this
      ensures Books() == Post(old(Books()), Finish(i, transfer, stored))
    {
      if transfer.HasReceipt() {
        entries := entries[i := Withdrawn(user, amount, Sent, transfer.WentOut())];
      } else if user in txtBalance && stored && txtBalance[user] + amount <= I64_MAX {
        txtBalance := txtBalance[user := txtBalance[user] + amount];
        entries := entries[i := Withdrawn(user, amount, Returned, transfer.WentOut())];
      } else {
        entries := entries[i := Withdrawn(user, amount, Lost, transfer.WentOut())];
      }
    }

    /** `POST /billing/withdraw` run to its end: a failed transfer that is given back leaves the balance as it was. */
    method WithdrawTxt(sono: SonoService?, user: UserId, amount: int, wallet: Wallet, transfer: Transfer, stored: bool)
      returns (r: Result<int, ApiError>)
      modifies this
      ensures amount <= 0 || sono == null || wallet.Malformed? ==> r == Err(InvalidRequest) && Books() == old(Books())
      ensures amount > 0 && sono != null && wallet.Valid? ==>
                && Books() == PostAll(old(Books()), [Begin(user, amount), Finish(|old(entries)|, transfer, stored)])
                && r == if user !in old(txtBalance) || old(txtBalance)[user] < amount then Err(InsufficientBalance)
                        else if transfer.HasReceipt() then Ok(old(txtBalance)[user] - amount) else Err(InternalError)
      ensures r.Err? && stored && (user in old(txtBalance) ==> old(txtBalance)[user] <= I64_MAX) ==>
                txtBalance == old(txtBalance)
    {
      if amount <= 0 || sono == null || wallet.Malformed? {
        return Err(InvalidRequest);
      }
      ghost var before := Books();
      PostTwo(before, Begin(user, amount), Finish(|entries|, transfer, stored));
      var deducted, i := BeginWithdrawal(user, amount);
      if deducted.Err? {
        return Err(deducted.error);
      }
      FinishWithdrawal(user, amount, i, transfer, stored);
      r := if transfer.HasReceipt() then Ok(deducted.value) else Err(InternalError);
    }
  }

  // ---------------------------------------------------------------------------------------------
  // The split charge, statement by statement
  // ---------------------------------------------------------------------------------------------

  /**
   The split charge reads the balance, and in a later statement sets it to zero. With other
   statements in between, it takes exactly what it reports when the balance is still what was read.
   */
  lemma SplitChargeNeedsTheReadBalance(opening: map<UserId, int>, b: Book, user: UserId, read: int)
    requires Balanced(opening, b) && user in b.balances && read > 0
    ensures Balanced(opening, Book(b.balances[user := 0], b.entries + [Charged(user, read)])) <==>
            b.balances[user] == read
  {
    var b' := Book(b.balances[user := 0], b.entries + [Charged(user, read)]);
    forall u | u in opening
      ensures b'.balances[u] == opening[u] + Total(b'.entries, u) <==> (u == user ==> b.balances[u] == read)
    {
      TotalSnoc(b.entries, Charged(user, read), u);
    }
  }
}
