/** Vunmo's request handlers on account balances, which are 64-bit unsigned integers. */
module Ledger {
  import opened Basics

  datatype RequestKind = BALANCE | DEPOSIT | WITHDRAWAL | PAYMENT | CHARGE
  datatype Request = Request(kind: RequestKind, origin: nat, target: nat, amount: nat)
  datatype Response = Response(amount: nat, success: bool)
  datatype NotificationKind = PAYMENT_NOTIFICATION | CHARGE_REQUEST_NOTIFICATION
  datatype Notification = Notification(kind: NotificationKind, origin: nat, amount: nat)

  // balance += amount, balance -= amount
  function Credit(balance: nat, amount: nat): nat {
    (balance + amount) % TWO_64
  }

  function Debit(balance: nat, amount: nat): nat {
    (balance - amount) % TWO_64
  }

  lemma Arithmetic(balance: nat, amount: nat)
    requires amount <= balance < TWO_64
    ensures Debit(balance, amount) == balance - amount
    ensures Credit(balance - amount, amount) == balance
  {
  }

  // ---- Specification on the whole ledger ----

  type Balances = map<nat, nat>

  predicate Known(b: Balances, q: Request) {
    q.origin in b && q.amount < TWO_64 && (q.kind == PAYMENT || q.kind == CHARGE ==> q.target in b)
  }

  predicate Affordable(b: Balances, q: Request)
    requires Known(b, q)
  {
    q.amount <= b[q.origin]
  }

  // The ledger after one handled request, in the handlers' wrapping arithmetic.
  function Apply(b: Balances, q: Request): (b': Balances)
    requires Known(b, q)
    ensures b'.Keys == b.Keys
  {
    match q.kind
    case BALANCE => b
    case CHARGE => b
    case DEPOSIT => b[q.origin := Credit(b[q.origin], q.amount)]
    case WITHDRAWAL => if Affordable(b, q) then b[q.origin := Debit(b[q.origin], q.amount)] else b
    case PAYMENT =>
      if Affordable(b, q) then
        var b1 := b[q.origin := Debit(b[q.origin], q.amount)];
        b1[q.target := Credit(b1[q.target], q.amount)]
      else b
  }

  predicate AllKnown(b: Balances, qs: seq<Request>) {
    forall q :: q in qs ==> Known(b, q)
  }

  function Run(b: Balances, qs: seq<Request>): (b': Balances)
    requires AllKnown(b, qs)
    ensures b'.Keys == b.Keys
  {
    if qs == [] then b
    else
      assert qs[0] in qs;
      assert forall q :: q in qs[1..] ==> q in qs;
      Run(Apply(b, qs[0]), qs[1..])
  }

  // Money put in, and money that left, by one request.
  function PutIn(q: Request): nat {
    if q.kind == DEPOSIT then q.amount else 0
  }

  function TakenOut(b: Balances, q: Request): nat
    requires Known(b, q)
  {
    if q.kind == WITHDRAWAL && Affordable(b, q) then q.amount else 0
  }

  function Deposits(qs: seq<Request>): nat {
    if qs == [] then 0 else PutIn(qs[0]) + Deposits(qs[1..])
  }

  function Withdrawals(b: Balances, qs: seq<Request>): nat
    requires AllKnown(b, qs)
  {
    if qs == [] then 0
    else
      assert qs[0] in qs;
      assert forall q :: q in qs[1..] ==> q in qs;
      TakenOut(b, qs[0]) + Withdrawals(Apply(b, qs[0]), qs[1..])
  }

  // ---- The sum of all balances ----

  ghost function Total(b: Balances): nat {
    if b == map[] then 0 else var k :| k in b; b[k] + Total(b - {k})
  }

  lemma {:induction false} TotalWithout(b: Balances, k: nat)
    requires k in b
    ensures Total(b) == b[k] + Total(b - {k})
    decreases |b|
  {
    var j :| j in b && Total(b) == b[j] + Total(b - {j});
    if j != k {
      TotalWithout(b - {j}, k);
      TotalWithout(b - {k}, j);
      assert b - {j} - {k} == b - {k} - {j};
    }
  }

  lemma TotalUpdate(b: Balances, k: nat, v: nat)
    requires k in b
    ensures Total(b[k := v]) == Total(b) - b[k] + v
  {
    TotalWithout(b, k);
    TotalWithout(b[k := v], k);
    assert b[k := v] - {k} == b - {k};
  }

  lemma BalanceWithinTotal(b: Balances, k: nat)
    requires k in b
    ensures b[k] <= Total(b)
  {
    TotalWithout(b, k);
  }

  // What the request should do to the ledger, in unbounded arithmetic.
  function Exact(b: Balances, q: Request): map<nat, int>
    requires Known(b, q)
  {
    match q.kind
    case BALANCE => b
    case CHARGE => b
    case DEPOSIT => b[q.origin := b[q.origin] + q.amount]
    case WITHDRAWAL => if Affordable(b, q) then b[q.origin := b[q.origin] - q.amount] else b
    case PAYMENT =>
      if Affordable(b, q) && q.origin != q.target then
        b[q.origin := b[q.origin] - q.amount][q.target := b[q.target] + q.amount]
      else b
  }

  // While the money in the system stays below 2^64 no handler wraps, and money is conserved.
  lemma ApplyIsExact(b: Balances, q: Request)
    requires Known(b, q) && Total(b) + PutIn(q) < TWO_64
    ensures Apply(b, q) == Exact(b, q)
    ensures Total(Apply(b, q)) == Total(b) + PutIn(q) - TakenOut(b, q)
  {
    BalanceWithinTotal(b, q.origin);
    match q.kind
    case BALANCE =>
    case CHARGE =>
    case DEPOSIT => TotalUpdate(b, q.origin, b[q.origin] + q.amount);
    case WITHDRAWAL =>
      if Affordable(b, q) {
        TotalUpdate(b, q.origin, b[q.origin] - q.amount);
      }
    case PAYMENT =>
      if Affordable(b, q) {
        PaymentIsExact(b, q);
      }
  }

  lemma PaymentIsExact(b: Balances, q: Request)
    requires Known(b, q) && q.kind == PAYMENT && Affordable(b, q) && Total(b) < TWO_64
    ensures Apply(b, q) == Exact(b, q) && Total(Apply(b, q)) == Total(b)
  {
    var left := b[q.origin] - q.amount;
    BalanceWithinTotal(b, q.origin);
    Arithmetic(b[q.origin], q.amount);
    var b1 := b[q.origin := left];
    TotalUpdate(b, q.origin, left);
    BalanceWithinTotal(b1, q.target);
    TotalUpdate(b1, q.target, b1[q.target] + q.amount);
    assert Apply(b, q) == b1[q.target := b1[q.target] + q.amount];
  }

  // For every sequence of handled requests: the total is what was there, plus deposits, minus successful withdrawals.
  lemma {:induction false} MoneyIsConserved(b: Balances, qs: seq<Request>)
    requires AllKnown(b, qs) && Total(b) + Deposits(qs) < TWO_64
    ensures Total(Run(b, qs)) == Total(b) + Deposits(qs) - Withdrawals(b, qs)
    ensures forall k :: k in b ==> Run(b, qs)[k] < TWO_64
    decreases |qs|
  {
    if qs == [] {
      forall k | k in b {
        BalanceWithinTotal(b, k);
      }
    } else {
      assert qs[0] in qs;
      assert forall q :: q in qs[1..] ==> q in qs;
      ApplyIsExact(b, qs[0]);
      MoneyIsConserved(Apply(b, qs[0]), qs[1..]);
    }
  }

  // ---- The handlers, on account objects ----

  class Account {
    const id: nat
    var balance: nat

    constructor (id: nat, balance: nat)
      ensures this.id == id && this.balance == balance
    {
      this.id, this.balance := id, balance;
    }
  }

  method HandleBalance(account: Account) returns (rc: int, resp: Response)
    ensures rc == 0 && resp == Response(account.balance, true)
  {
    return 0, Response(account.balance, true);
  }

  method HandleDeposit(req: Request, account: Account) returns (rc: int, resp: Response)
    modifies account
    ensures rc == 0 && account.balance == Credit(old(account.balance), req.amount)
    ensures resp == Response(account.balance, true)
  {
    account.balance := (account.balance + req.amount) % TWO_64;
    return 0, Response(account.balance, true);
  }

  method HandleWithdraw(req: Request, account: Account) returns (rc: int, resp: Response)
    modifies account
    ensures rc == (if req.amount <= old(account.balance) then 0 else -1)
    ensures account.balance == (if rc == 0 then old(account.balance) - req.amount else old(account.balance))
    ensures resp == Response(account.balance, rc == 0)
  {
    if req.amount > account.balance {
      return -1, Response(account.balance, false);
    }
    account.balance := account.balance - req.amount;
    return 0, Response(account.balance, true);
  }

  // The two accounts may be the same object; the balance is then unchanged.
  method HandlePay(req: Request, first: Account, second: Account)
      returns (rc: int, resp: Response, note: Option<Notification>)
    requires first.balance < TWO_64 && second.balance < TWO_64
    modifies first, second
    ensures rc == (if req.amount <= old(first.balance) then 0 else -1)
    ensures rc != 0 ==> first.balance == old(first.balance) && second.balance == old(second.balance)
    ensures rc == 0 && first != second ==>
      first.balance == old(first.balance) - req.amount && second.balance == Credit(old(second.balance), req.amount)
    ensures rc == 0 && first == second ==> first.balance == old(first.balance)
    ensures note == (if rc == 0 then Some(Notification(PAYMENT_NOTIFICATION, first.id, req.amount)) else None)
    ensures resp == Response(first.balance, rc == 0)
  {
    if first.balance < req.amount {
      return -1, Response(first.balance, false), None;
    }
    first.balance := first.balance - req.amount;
    second.balance := (second.balance + req.amount) % TWO_64;
    return 0, Response(first.balance, true), Some(Notification(PAYMENT_NOTIFICATION, first.id, req.amount));
  }

  method HandleCharge(req: Request, first: Account, second: Account)
      returns (rc: int, resp: Response, note: Notification)
    ensures rc == 0 && resp == Response(first.balance, true)
    ensures note == Notification(CHARGE_REQUEST_NOTIFICATION, first.id, req.amount)
  {
    return 0, Response(first.balance, true), Notification(CHARGE_REQUEST_NOTIFICATION, first.id, req.amount);
  }

  // The notification its target gets for a request.
  function Notice(req: Request, success: bool): Option<Notification> {
    match req.kind
    case PAYMENT => if success then Some(Notification(PAYMENT_NOTIFICATION, req.origin, req.amount)) else None
    case CHARGE => Some(Notification(CHARGE_REQUEST_NOTIFICATION, req.origin, req.amount))
    case _ => None
  }

  // The server's accounts, with every request passed to its handler.
  class Server {
    var accounts: map<nat, Account>

    ghost predicate Valid()
      reads this, accounts.Values
    {
      forall k :: k in accounts ==> accounts[k].id == k && accounts[k].balance < TWO_64
    }

    ghost function Book(): Balances
      reads this, accounts.Values
    {
      map k | k in accounts :: accounts[k].balance
    }

    // Each handler does to the ledger what the specification says, and to nothing else.
    method Handle(req: Request) returns (rc: int, resp: Response, note: Option<Notification>)
      requires Valid() && Known(Book(), req)
      modifies accounts.Values
      ensures Valid() && Book() == Apply(old(Book()), req)
      ensures accounts == old(accounts)
      ensures rc == 0 || rc == -1
      ensures rc == 0 <==> (req.kind == WITHDRAWAL || req.kind == PAYMENT ==> Affordable(old(Book()), req))
      ensures resp == Response(Book()[req.origin], rc == 0)
      ensures note == Notice(req, rc == 0)
    {
      note := None;
      var first := accounts[req.origin];
      if req.amount <= first.balance {
        Arithmetic(first.balance, req.amount);
      }
      match req.kind {
        case BALANCE => rc, resp := HandleBalance(first);
        case DEPOSIT => rc, resp := HandleDeposit(req, first);
        case WITHDRAWAL => rc, resp := HandleWithdraw(req, first);
        case PAYMENT => rc, resp, note := HandlePay(req, first, accounts[req.target]);
        case CHARGE =>
          var n;
          rc, resp, n := HandleCharge(req, first, accounts[req.target]);
          note := Some(n);
      }
    }
  }

  // ---- Charges ----

  // The client's answer to a charge notification: a payment to the client that charges, or nothing.
  method HandleChargeRequest(client: nat, n: Notification, accept: bool) returns (req: Option<Request>)
    ensures req == if accept then Some(Request(PAYMENT, client, n.origin, n.amount)) else None
  {
    if !accept {
      return None;
    }
    return Some(Request(PAYMENT, client, n.origin, n.amount));
  }

  // Exactly the amount has moved, if it was there.
  predicate Moved(b: Balances, b': Balances, from: nat, to: nat, amount: nat) {
    && from in b && to in b && amount <= b[from]
    && if from == to then b' == b else b' == b[from := b[from] - amount][to := b[to] + amount]
  }

  // A payment moves exactly the amount if it is there, and nothing otherwise.
  lemma PaymentMoves(b: Balances, q: Request)
    requires Known(b, q) && q.kind == PAYMENT && Total(b) < TWO_64
    ensures Total(Apply(b, q)) == Total(b)
    ensures if Affordable(b, q) then Moved(b, Apply(b, q), q.origin, q.target, q.amount) else Apply(b, q) == b
  {
    if Affordable(b, q) {
      PaymentIsExact(b, q);
    }
  }

  // The requests in between leave the money in the system below 2^64.
  lemma BetweenIsBounded(b: Balances, qs: seq<Request>)
    requires AllKnown(b, qs) && Total(b) + Deposits(qs) < TWO_64
    ensures Total(Run(b, qs)) < TWO_64
  {
    MoneyIsConserved(b, qs);
  }

  // Requests one after the other.
  method HandleAll(server: Server, qs: seq<Request>)
    requires server.Valid() && AllKnown(server.Book(), qs)
    modifies server.accounts.Values
    ensures server.Valid() && server.accounts == old(server.accounts)
    ensures server.Book() == Run(old(server.Book()), qs)
  {
    ghost var b := server.Book();
    for i := 0 to |qs|
      invariant server.Valid() && server.accounts == old(server.accounts) && server.Book().Keys == b.Keys
      invariant AllKnown(b, qs[..i]) && server.Book() == Run(b, qs[..i])
    {
      assert qs[i] in qs;
      RunMore(b, qs, i);
      var _, _, _ := server.Handle(qs[i]);
    }
    assert qs[..|qs|] == qs;
  }

  lemma {:induction false} RunMore(b: Balances, qs: seq<Request>, n: nat)
    requires n < |qs| && AllKnown(b, qs)
    ensures AllKnown(b, qs[..n]) && AllKnown(b, qs[..n + 1]) && Known(Run(b, qs[..n]), qs[n])
    ensures Run(b, qs[..n + 1]) == Apply(Run(b, qs[..n]), qs[n])
    decreases n
  {
    assert qs[n] in qs;
    if n > 0 {
      assert qs[0] in qs && forall q :: q in qs[1..] ==> q in qs;
      RunMore(Apply(b, qs[0]), qs[1..], n - 1);
      assert qs[..n][1..] == qs[1..][..n - 1] && qs[..n + 1][1..] == qs[1..][..n];
    } else {
      assert qs[..1] == [qs[0]] && qs[..0] == [];
    }
  }

  // A charge, any requests of anyone in the meantime, and the charged client's answer to the notification it got.
  // Exactly the amount moves from the charged to the charging client, if and only if the client accepts and its balance
  // suffices when the answer arrives; otherwise nothing moves. The charge itself moves nothing.
  method ChargeAndAnswer(server: Server, charge: Request, between: seq<Request>, accept: bool) returns (paid: bool)
    requires server.Valid() && Known(server.Book(), charge) && charge.kind == CHARGE
    requires AllKnown(server.Book(), between) && Total(server.Book()) + Deposits(between) < TWO_64
    modifies server.accounts.Values
    ensures server.Valid()
    ensures
      var b := Run(old(server.Book()), between);
      && (paid <==> accept && charge.amount <= b[charge.target])
      && (if paid then Moved(b, server.Book(), charge.target, charge.origin, charge.amount) else server.Book() == b)
      && Total(server.Book()) == Total(b)
  {
    ghost var b := server.Book();
    BetweenIsBounded(b, between);
    var _, _, note := server.Handle(charge);
    HandleAll(server, between);
    var answer := HandleChargeRequest(charge.target, note.value, accept);
    paid := false;
    if answer.Some? {
      PaymentMoves(server.Book(), answer.value);
      var rc, _, _ := server.Handle(answer.value);
      paid := rc == 0;
    }
  }
}
