/**
 Razorpay top-ups: the wallet's ledger (`wallet.Store`) and the two handlers that race to credit
 one payment, the `payment.captured` webhook and the browser's verify-payment call.
 Every database call is one atomic step; any number of calls may be in flight.
 */
module WalletCredit {
  import opened Wrappers

  /** NoPayment is the NULL that `nullable("")` stores; it is outside the unique index. */
  datatype PaymentId = NoPayment | Payment(id: string)

  datatype OrderId = NoOrder | OrderRef(id: string)

  datatype Order = Order(org: int, actor: int, amount: int)

  datatype Row = Row(org: int, amount: int, balanceAfter: int, order: OrderId, payment: PaymentId)

  /** A user's spent_paise and spending_cap_paise. */
  datatype User = User(spent: nat, cap: Option<nat>)

  /** razorpay_orders, wallet_transactions (oldest first), wallets, and all users and organisations. */
  datatype Books = Books(
    orders: map<OrderId, Order>, ledger: seq<Row>, balances: map<int, int>, users: map<int, User>, orgs: set<int>)

  // ---------- reading the books ----------

  function BalanceOf(b: Books, org: int): int {
    if org in b.balances then b.balances[org] else 0
  }

  predicate HasPayment(ledger: seq<Row>, p: PaymentId) {
    exists i :: 0 <= i < |ledger| && ledger[i].payment == p
  }

  /** The row the unique index makes the only one; meaningful when there is one. */
  function PaymentOrg(ledger: seq<Row>, p: PaymentId): (org: int)
    requires HasPayment(ledger, p)
    ensures exists i :: 0 <= i < |ledger| && ledger[i].payment == p && ledger[i].org == org
  {
    if ledger[|ledger| - 1].payment == p then ledger[|ledger| - 1].org else PaymentOrg(ledger[..|ledger| - 1], p)
  }

  function SumFor(ledger: seq<Row>, org: int): int {
    if ledger == [] then 0
    else
      var last := ledger[|ledger| - 1];
      SumFor(ledger[..|ledger| - 1], org) + if last.org == org then last.amount else 0
  }

  // ---------- wallet.Store ----------

  datatype CreditResult = Committed(row: Row) | InvalidAmount | UnknownOrg | UniqueViolation

  /** A wallet's key is a foreign key on organisations. */
  function EnsureWallet(b: Books, org: int): Books {
    if org in b.balances || org !in b.orgs then b else b.(balances := b.balances[org := 0])
  }

  /** The balance of `org` moves by `amount` and the ledger records it. */
  function Post(b: Books, org: int, amount: int, order: OrderId, p: PaymentId): Books {
    var after := BalanceOf(b, org) + amount;
    b.(balances := b.balances[org := after], ledger := b.ledger + [Row(org, amount, after, order, p)])
  }

  function Credit(b: Books, org: int, amount: int, order: OrderId, p: PaymentId): (Books, CreditResult) {
    if amount <= 0 then (b, InvalidAmount)
    else if org !in b.orgs then (b, UnknownOrg)
    else if p != NoPayment && HasPayment(b.ledger, p) then (EnsureWallet(b, org), UniqueViolation)
    else
      var b' := Post(b, org, amount, order, p);
      (b', Committed(b'.ledger[|b'.ledger| - 1]))
  }

  /** The ledger's actor is a foreign key on users, and no user has number 0. */
  predicate Known(b: Books, actor: int) {
    actor > 0 && actor in b.users
  }

  /** The counter's guarded update would refuse. */
  predicate OverCap(b: Books, actor: int, amount: int) {
    Known(b, actor) && b.users[actor].cap.Some? && b.users[actor].spent + amount > b.users[actor].cap.value
  }

  /** Nothing rolls a debit of `actor` back. */
  predicate Lands(b: Books, org: int, actor: int, amount: int) {
    0 < amount <= BalanceOf(b, org) && Known(b, actor) && !OverCap(b, actor, amount)
  }

  function Spent(b: Books, actor: int, amount: nat): Books {
    if !Known(b, actor) then b
    else b.(users := b.users[actor := b.users[actor].(spent := b.users[actor].spent + amount)])
  }

  /**
   Debit: a charge and the actor's counter are posted together, or rolled back. The ledger insert comes first and names
   the actor, so the branches that let the system user and deleted users through are never reached.
   */
  function Charge(b: Books, org: int, actor: int, amount: int): Books {
    if amount <= 0 then b
    else if !Lands(b, org, actor, amount) then EnsureWallet(b, org)
    else Spent(Post(b, org, -amount, NoOrder, NoPayment), actor, amount)
  }

  // ---------- the two handlers, step by step ----------

  datatype Request =
    | WebhookDelivery(payment: PaymentId, order: OrderId, amount: int, captured: bool)
    | BrowserVerify(payment: PaymentId, order: OrderId, org: int, signed: bool)

  datatype Reply = Credited | Replayed | Ignored | BadRequest | UnknownOrder | Forbidden | ServerError

  /** What the handler has learnt so far, between two database calls. */
  datatype Stage =
    | Arrived
    | OrderFound(o: Order)
    | PaymentUnseen
    | Ready(o: Order)
    | CreditFailed(o: Order)
    | Replied(reply: Reply)

  datatype Call = Call(req: Request, stage: Stage)

  /** How the database answers one step: normally, with an error and no effect, or with the commit's answer lost. */
  datatype Fault = Fine | Fails | AnswerLost

  /** The next step of a webhook delivery. */
  function WebhookStep(b: Books, c: Call, f: Fault): (Books, Stage)
    requires c.req.WebhookDelivery?
  {
    match c.stage
    case Arrived =>
      if c.req.payment == NoPayment || c.req.order == NoOrder || c.req.amount <= 0 then (b, Replied(BadRequest))
      else if !c.req.captured then (b, Replied(Ignored))
      else if f != Fine then (b, Replied(ServerError))
      else if c.req.order !in b.orders then (b, Replied(UnknownOrder))
      else (b, OrderFound(b.orders[c.req.order]))
    case OrderFound(o) =>
      if f != Fine then (b, Replied(ServerError))
      else if HasPayment(b.ledger, c.req.payment) then (b, Replied(Replayed))
      else (b, Ready(o))
    case Ready(o) =>
      if f == Fails then (b, CreditFailed(o))
      else
        var (b', r) := Credit(b, o.org, o.amount, c.req.order, c.req.payment);
        (b', if f == Fine && r.Committed? then Replied(Credited) else CreditFailed(o))
    case CreditFailed(_) =>
      if f == Fine && HasPayment(b.ledger, c.req.payment) then (b, Replied(Replayed))
      else (b, Replied(ServerError))
    case PaymentUnseen => (b, c.stage)
    case Replied(_) => (b, c.stage)
  }

  /** The next step of the browser's verify-payment call. */
  function BrowserStep(b: Books, c: Call, f: Fault): (Books, Stage)
    requires c.req.BrowserVerify?
  {
    match c.stage
    case Arrived =>
      if c.req.payment == NoPayment || c.req.order == NoOrder then (b, Replied(BadRequest))
      else if f != Fine then (b, Replied(ServerError))
      else if !HasPayment(b.ledger, c.req.payment) then (b, PaymentUnseen)
      else if PaymentOrg(b.ledger, c.req.payment) != c.req.org then (b, Replied(Forbidden))
      else (b, Replied(Replayed))
    case PaymentUnseen =>
      if f != Fine then (b, Replied(ServerError))
      else if c.req.order !in b.orders then (b, Replied(BadRequest))
      else if b.orders[c.req.order].org != c.req.org then (b, Replied(Forbidden))
      else if !c.req.signed then (b, Replied(BadRequest))
      else (b, Ready(b.orders[c.req.order]))
    case Ready(o) =>
      if f == Fails then (b, CreditFailed(o))
      else
        var (b', r) := Credit(b, c.req.org, o.amount, c.req.order, c.req.payment);
        (b', if r == InvalidAmount then Replied(BadRequest)
             else if f == Fine && r.Committed? then Replied(Credited)
             else CreditFailed(o))
    case CreditFailed(_) =>
      if f == Fine && HasPayment(b.ledger, c.req.payment) && PaymentOrg(b.ledger, c.req.payment) == c.req.org
      then (b, Replied(Replayed))
      else (b, Replied(ServerError))
    case OrderFound(_) => (b, c.stage)
    case Replied(_) => (b, c.stage)
  }

  function Advance(b: Books, c: Call, f: Fault): (Books, Call) {
    var (b', s) := if c.req.WebhookDelivery? then WebhookStep(b, c, f) else BrowserStep(b, c, f);
    (b', c.(stage := s))
  }

  // ---------- runs ----------

  datatype Action =
    | Receive(req: Request)
    | Step(call: nat, fault: Fault)
    | SaveOrder(id: OrderId, order: Order)
    | Debit(org: int, actor: int, amount: int)
    | ManualCredit(org: int, amount: int)
    | AddUser(user: int, cap: Option<nat>)
    | PatchUser(user: int, change: CapChange, resetSpent: bool)
    | DropUser(user: int)
    | AddOrg(org: int)

  /** What the operator PATCH does to the cap. */
  datatype CapChange = Keep | Clear | Set(cap: int)

  datatype System = System(books: Books, calls: seq<Call>)

  function Patched(u: User, change: CapChange, resetSpent: bool): User
    requires change.Set? ==> change.cap > 0
  {
    User(if resetSpent then 0 else u.spent,
         match change case Keep => u.cap case Clear => None case Set(cap) => Some(cap))
  }

  /** Before a user is deleted the orders' actor is set to NULL, which that column does not allow. */
  predicate NamedByAnOrder(b: Books, user: int) {
    exists id :: id in b.orders && b.orders[id].actor == user
  }

  function Next(s: System, a: Action): System {
    match a
    case Receive(req) => s.(calls := s.calls + [Call(req, Arrived)])
    case Step(i, f) =>
      if i >= |s.calls| then s
      else
        var (b, c) := Advance(s.books, s.calls[i], f);
        System(b, s.calls[i := c])
    case SaveOrder(id, order) =>
      if id == NoOrder || id in s.books.orders || order.amount <= 0 then s
      else if order.org !in s.books.orgs || !Known(s.books, order.actor) then s
      else s.(books := s.books.(orders := s.books.orders[id := order]))
    case Debit(org, actor, amount) => s.(books := Charge(s.books, org, actor, amount))
    case AddUser(user, cap) =>
      if user <= 0 || user in s.books.users || cap == Some(0) then s
      else s.(books := s.books.(users := s.books.users[user := User(0, cap)]))
    case PatchUser(user, change, resetSpent) =>
      if user !in s.books.users || (change.Set? && change.cap <= 0) then s
      else s.(books := s.books.(users := s.books.users[user := Patched(s.books.users[user], change, resetSpent)]))
    case DropUser(user) =>
      if NamedByAnOrder(s.books, user) then s else s.(books := s.books.(users := s.books.users - {user}))
    case AddOrg(org) => s.(books := s.books.(orgs := s.books.orgs + {org}))
    case ManualCredit(org, amount) => s.(books := Credit(s.books, org, amount, NoOrder, NoPayment).0)
  }

  function Run(s: System, actions: seq<Action>): System {
    if actions == [] then s else Next(Run(s, actions[..|actions| - 1]), actions[|actions| - 1])
  }

  // ---------- the invariant ----------

  ghost predicate UniquePayments(ledger: seq<Row>) {
    forall i, j :: 0 <= i < j < |ledger| && ledger[i].payment != NoPayment ==> ledger[i].payment != ledger[j].payment
  }

  /** A deposit is worth what its order says, and goes to the organisation the order names. */
  predicate FromOrder(orders: map<OrderId, Order>, row: Row) {
    row.payment == NoPayment
    || (row.order in orders && row.amount == orders[row.order].amount && row.org == orders[row.order].org)
  }

  ghost predicate SoundBooks(b: Books) {
    && UniquePayments(b.ledger)
    && (forall i :: 0 <= i < |b.ledger| ==> FromOrder(b.orders, b.ledger[i]))
    && Balanced(b)
    && KeyedOrders(b)
  }

  /** Every balance is the sum of its ledger rows, and none is negative. */
  ghost predicate Balanced(b: Books) {
    && (forall org :: BalanceOf(b, org) == SumFor(b.ledger, org))
    && (forall org :: 0 <= BalanceOf(b, org))
  }

  /** Orders are worth something and name an organisation and a user; wallets belong to organisations. */
  ghost predicate KeyedOrders(b: Books) {
    && (forall id :: id in b.orders ==> id != NoOrder && 0 < b.orders[id].amount)
    && (forall id :: id in b.orders ==> b.orders[id].org in b.orgs && Known(b, b.orders[id].actor))
    && b.balances.Keys <= b.orgs
  }

  ghost predicate SoundCall(b: Books, c: Call) {
    match c.stage
    case Arrived => true
    case PaymentUnseen => c.req.payment != NoPayment
    case OrderFound(o) => c.req.payment != NoPayment && c.req.order in b.orders && b.orders[c.req.order] == o
    case Ready(o) => KnownOrder(b, c.req, o)
    case CreditFailed(o) => KnownOrder(b, c.req, o)
    case Replied(r) =>
      r in {Credited, Replayed} ==>
        && HasPayment(b.ledger, c.req.payment)
        && (c.req.BrowserVerify? ==> PaidTo(b.ledger, c.req.payment, c.req.org))
  }

  /** The payment is in the ledger, for this organisation. */
  ghost predicate PaidTo(ledger: seq<Row>, p: PaymentId, org: int) {
    exists i :: 0 <= i < |ledger| && ledger[i].payment == p && ledger[i].org == org
  }

  ghost predicate KnownOrder(b: Books, req: Request, o: Order) {
    && req.payment != NoPayment
    && req.order in b.orders && b.orders[req.order] == o
    && (req.BrowserVerify? ==> req.org == o.org)
  }

  ghost predicate Sound(s: System) {
    && SoundBooks(s.books)
    && (forall i :: 0 <= i < |s.calls| ==> SoundCall(s.books, s.calls[i]))
    && OneCredited(s.calls)
  }

  /** No payment is answered "credited" twice. */
  ghost predicate OneCredited(calls: seq<Call>) {
    forall i, j :: 0 <= i < j < |calls| && calls[i].stage == Replied(Credited) && calls[j].stage == Replied(Credited)
      ==> calls[i].req.payment != calls[j].req.payment
  }

  /** Later books keep every order and every ledger row of earlier ones. */
  ghost predicate Extends(b: Books, b': Books) {
    && b.ledger <= b'.ledger
    && (forall id :: id in b.orders ==> id in b'.orders && b'.orders[id] == b.orders[id])
  }

  lemma PostKeepsSound(b: Books, org: int, amount: int, order: OrderId, p: PaymentId)
    requires SoundBooks(b) && org in b.orgs && 0 <= BalanceOf(b, org) + amount
    requires p != NoPayment ==> !HasPayment(b.ledger, p)
    requires FromOrder(b.orders, Row(org, amount, 0, order, p))
    ensures var b' := Post(b, org, amount, order, p);
            SoundBooks(b') && Extends(b, b') && HasPayment(b'.ledger, p)
  {
    PostKeepsBalanced(b, org, amount, order, p);
    PostKeepsDeposits(b, org, amount, order, p);
  }

  lemma PostKeepsBalanced(b: Books, org: int, amount: int, order: OrderId, p: PaymentId)
    requires Balanced(b) && 0 <= BalanceOf(b, org) + amount
    ensures Balanced(Post(b, org, amount, order, p))
  {
    var b' := Post(b, org, amount, order, p);
    assert b'.ledger[..|b.ledger|] == b.ledger;
  }

  lemma PostKeepsDeposits(b: Books, org: int, amount: int, order: OrderId, p: PaymentId)
    requires UniquePayments(b.ledger) && (p != NoPayment ==> !HasPayment(b.ledger, p))
    requires forall i :: 0 <= i < |b.ledger| ==> FromOrder(b.orders, b.ledger[i])
    requires FromOrder(b.orders, Row(org, amount, 0, order, p))
    ensures var b' := Post(b, org, amount, order, p);
            && UniquePayments(b'.ledger) && HasPayment(b'.ledger, p)
            && forall i :: 0 <= i < |b'.ledger| ==> FromOrder(b.orders, b'.ledger[i])
  {
    assert Post(b, org, amount, order, p).ledger[|b.ledger|].payment == p;
  }

  lemma EnsureKeepsSound(b: Books, org: int)
    requires SoundBooks(b)
    ensures SoundBooks(EnsureWallet(b, org)) && Extends(b, EnsureWallet(b, org))
  {}

  /** A credit appends exactly one row with its amount and adds that amount to one balance, or moves nothing. */
  lemma CreditPostsExactly(b: Books, org: int, amount: int, order: OrderId, p: PaymentId)
    ensures var (b', r) := Credit(b, org, amount, order, p);
            && (r.Committed? <==> amount > 0 && org in b.orgs && (p == NoPayment || !HasPayment(b.ledger, p)))
            && (r.Committed? ==>
                  && b'.ledger == b.ledger + [Row(org, amount, BalanceOf(b', org), order, p)]
                  && BalanceOf(b', org) == BalanceOf(b, org) + amount
                  && forall o :: o != org ==> BalanceOf(b', o) == BalanceOf(b, o))
            && (!r.Committed? ==> b'.ledger == b.ledger && forall o :: BalanceOf(b', o) == BalanceOf(b, o))
            && b'.orders == b.orders && b'.users == b.users && b'.orgs == b.orgs
            && (amount > 0 && org in b.orgs ==> org in b'.balances)
  {}

  /**
   What a credit does to sound books: one row and its amount, or a refusal, for a duplicate with the row there
   already.
   */
  lemma CreditKeepsSound(b: Books, org: int, amount: int, order: OrderId, p: PaymentId)
    requires SoundBooks(b) && FromOrder(b.orders, Row(org, amount, 0, order, p))
    ensures var (b', r) := Credit(b, org, amount, order, p);
            && SoundBooks(b') && Extends(b, b')
            && (r.Committed? ==>
                  && HasPayment(b'.ledger, p) && (p != NoPayment ==> !HasPayment(b.ledger, p))
                  && b'.ledger == b.ledger + [Row(org, amount, BalanceOf(b', org), order, p)]
                  && BalanceOf(b', org) == BalanceOf(b, org) + amount)
            && (!r.Committed? ==> b'.ledger == b.ledger && forall o :: BalanceOf(b', o) == BalanceOf(b, o))
            && (r == UniqueViolation ==> HasPayment(b'.ledger, p))
  {
    CreditPostsExactly(b, org, amount, order, p);
    if amount <= 0 || org !in b.orgs {
    } else if p != NoPayment && HasPayment(b.ledger, p) {
      EnsureKeepsSound(b, org);
    } else {
      assert 0 <= BalanceOf(b, org);
      PostKeepsSound(b, org, amount, order, p);
    }
  }

  /** What one step of a handler keeps: a fresh "credited" means the row was not there before and is now. */
  ghost predicate StepIsSound(b: Books, c: Call, b': Books, stage: Stage) {
    && SoundBooks(b') && Extends(b, b') && SoundCall(b', c.(stage := stage))
    && (stage == Replied(Credited) && c.stage != stage ==> !HasPayment(b.ledger, c.req.payment))
  }

  lemma WebhookStepIsSound(b: Books, c: Call, f: Fault)
    requires SoundBooks(b) && SoundCall(b, c) && c.req.WebhookDelivery?
    ensures var (b', stage) := WebhookStep(b, c, f); StepIsSound(b, c, b', stage)
  {
    if c.stage.Ready? && f != Fails {
      CreditKeepsSound(b, c.stage.o.org, c.stage.o.amount, c.req.order, c.req.payment);
    }
  }

  /** The browser call's reads and answers. */
  lemma BrowserReadIsSound(b: Books, c: Call, f: Fault)
    requires SoundBooks(b) && SoundCall(b, c) && c.req.BrowserVerify? && !c.stage.Ready?
    ensures var (b', stage) := BrowserStep(b, c, f); b' == b && StepIsSound(b, c, b', stage)
  {}

  /** The browser call's credit. */
  lemma BrowserCreditIsSound(b: Books, c: Call, f: Fault)
    requires SoundBooks(b) && SoundCall(b, c) && c.req.BrowserVerify? && c.stage.Ready?
    ensures var (b', stage) := BrowserStep(b, c, f); StepIsSound(b, c, b', stage)
  {
    if f != Fails { CreditKeepsSound(b, c.req.org, c.stage.o.amount, c.req.order, c.req.payment); }
  }

  lemma BrowserStepIsSound(b: Books, c: Call, f: Fault)
    requires SoundBooks(b) && SoundCall(b, c) && c.req.BrowserVerify?
    ensures var (b', stage) := BrowserStep(b, c, f); StepIsSound(b, c, b', stage)
  {
    if c.stage.Ready? { BrowserCreditIsSound(b, c, f); } else { BrowserReadIsSound(b, c, f); }
  }

  lemma AdvanceKeepsSound(b: Books, c: Call, f: Fault)
    requires SoundBooks(b) && SoundCall(b, c)
    ensures var (b', c') := Advance(b, c, f);
            c'.req == c.req && c' == c.(stage := c'.stage) && StepIsSound(b, c, b', c'.stage)
  {
    if c.req.WebhookDelivery? { WebhookStepIsSound(b, c, f); } else { BrowserStepIsSound(b, c, f); }
  }

  lemma CallsStaySound(b: Books, b': Books, calls: seq<Call>)
    requires forall i :: 0 <= i < |calls| ==> SoundCall(b, calls[i])
    requires Extends(b, b')
    ensures forall i :: 0 <= i < |calls| ==> SoundCall(b', calls[i])
  {}

  lemma StepKeepsSound(s: System, i: nat, f: Fault)
    requires Sound(s)
    ensures Sound(Next(s, Step(i, f))) && Extends(s.books, Next(s, Step(i, f)).books)
  {
    if i < |s.calls| {
      assert SoundCall(s.books, s.calls[i]);
      AdvanceKeepsSound(s.books, s.calls[i], f);
      var (b', c') := Advance(s.books, s.calls[i], f);
      CallsStaySound(s.books, b', s.calls);
      var calls' := s.calls[i := c'];
      forall j, k | && 0 <= j < k < |calls'|
                    && calls'[j].stage == Replied(Credited) && calls'[k].stage == Replied(Credited)
        ensures calls'[j].req.payment != calls'[k].req.payment
      {
        // The earlier winner's row is in the ledger, and a fresh "credited" needs the ledger not to have it.
        assert SoundCall(s.books, s.calls[j]) && SoundCall(s.books, s.calls[k]);
      }
    }
  }

  lemma SaveOrderKeepsSound(s: System, id: OrderId, order: Order)
    requires Sound(s)
    ensures Sound(Next(s, SaveOrder(id, order))) && Extends(s.books, Next(s, SaveOrder(id, order)).books)
  {
    var b' := Next(s, SaveOrder(id, order)).books;
    assert forall org :: BalanceOf(b', org) == BalanceOf(s.books, org);
    CallsStaySound(s.books, b', s.calls);
  }

  lemma SpentKeepsSound(b: Books, actor: int, amount: nat)
    requires SoundBooks(b)
    ensures SoundBooks(Spent(b, actor, amount))
    ensures Spent(b, actor, amount).ledger == b.ledger && Spent(b, actor, amount).orders == b.orders
  {
    assert forall o :: BalanceOf(Spent(b, actor, amount), o) == BalanceOf(b, o);
  }

  /**
   The comment beside the counter promises that a debit of the system (actor 0) or of a deleted user goes through
   uncounted. The foreign key refuses both: a charge lands exactly when the balance covers it, the actor is a user, and
   the actor's cap covers it; balance, ledger and counter then move together.
   */
  lemma DebitLandsExactly(s: System, org: int, actor: int, amount: int)
    ensures var b, b' := s.books, Next(s, Debit(org, actor, amount)).books;
            var lands := && 0 < amount <= BalanceOf(b, org) && actor > 0 && actor in b.users
                         && (b.users[actor].cap.Some? ==> b.users[actor].spent + amount <= b.users[actor].cap.value);
            var moved := if lands then amount else 0;
            var row := Row(org, -amount, BalanceOf(b', org), NoOrder, NoPayment);
            && BalanceOf(b', org) == BalanceOf(b, org) - moved
            && (forall o :: o != org ==> BalanceOf(b', o) == BalanceOf(b, o))
            && b'.ledger == b.ledger + (if lands then [row] else [])
            && (amount <= 0 ==> b' == b) && b'.users.Keys == b.users.Keys
            && (forall u :: u in b.users ==>
                  b'.users[u] == b.users[u].(spent := b.users[u].spent + (if u == actor then moved else 0)))
  {}

  /** Whatever the balance, the system's own debit and a deleted user's leave the books as they were. */
  lemma UnknownActorsNeverCharge(b: Books, org: int, actor: int, amount: int)
    requires actor == 0 || actor !in b.users
    ensures var b' := Charge(b, org, actor, amount);
            b'.ledger == b.ledger && forall o :: BalanceOf(b', o) == BalanceOf(b, o)
  {}

  lemma DebitKeepsSound(b: Books, org: int, actor: int, amount: int)
    requires SoundBooks(b)
    ensures SoundBooks(Charge(b, org, actor, amount)) && Extends(b, Charge(b, org, actor, amount))
  {
    if Lands(b, org, actor, amount) {
      var posted := Post(b, org, -amount, NoOrder, NoPayment);
      PostKeepsSound(b, org, -amount, NoOrder, NoPayment);
      SpentKeepsSound(posted, actor, amount);
      assert Charge(b, org, actor, amount) == Spent(posted, actor, amount);
    } else if amount > 0 {
      EnsureKeepsSound(b, org);
    }
  }

  /** No user has spent more than the cap. */
  predicate CapsHold(b: Books) {
    forall u :: u in b.users ==> WithinCap(b.users[u])
  }

  predicate WithinCap(u: User) {
    u.cap.Some? ==> u.spent <= u.cap.value
  }

  /** The PATCH sets a cap below what the user has spent, and does not reset that. */
  predicate CutsBelow(s: System, a: Action) {
    && a.PatchUser? && a.user in s.books.users && a.change.Set? && a.change.cap > 0 && !a.resetSpent
    && a.change.cap < s.books.users[a.user].spent
  }

  lemma NextKeepsCapsExactly(s: System, a: Action)
    requires CapsHold(s.books)
    ensures CapsHold(Next(s, a).books) <==> !CutsBelow(s, a)
  {
    match a
    case PatchUser(user, change, resetSpent) =>
      if CutsBelow(s, a) { assert !WithinCap(Next(s, a).books.users[user]); }
    case Step(i, f) => if i < |s.calls| { AdvanceKeepsUsers(s.books, s.calls[i], f); }
    case Debit(org, actor, amount) => DebitLandsExactly(s, org, actor, amount);
    case _ =>
  }

  /**
   Who may spend, and how much: a new user starts at zero under the cap given; a PATCH resets the counter only when
   asked to, and keeps, clears or sets the cap; and neither touches anybody else or the books.
   */
  lemma AccountsWrite(s: System, user: int, cap: Option<nat>, change: CapChange, resetSpent: bool)
    requires change.Set? ==> 0 < change.cap
    ensures var s' := Next(s, AddUser(user, cap));
            && s'.calls == s.calls && s'.books == s.books.(users := s'.books.users)
            && (user in s'.books.users <==> user in s.books.users || (0 < user && cap != Some(0)))
            && (forall u :: u in s.books.users ==> u in s'.books.users && s'.books.users[u] == s.books.users[u])
            && (forall u :: u in s'.books.users && u !in s.books.users ==> u == user)
            && (user in s'.books.users && user !in s.books.users ==>
                  s'.books.users[user].spent == 0 && s'.books.users[user].cap == cap)
    ensures var s' := Next(s, PatchUser(user, change, resetSpent));
            && s'.calls == s.calls && s'.books == s.books.(users := s'.books.users)
            && s'.books.users.Keys == s.books.users.Keys
            && forall u :: u in s.books.users ==>
                 var was, now := s.books.users[u], s'.books.users[u];
                 if u != user then now == was
                 else now.spent == (if resetSpent then 0 else was.spent)
                      && (change == Keep ==> now.cap == was.cap) && (change == Clear ==> now.cap == None)
                      && (change.Set? ==> now.cap.Some? && now.cap.value == change.cap)
  {}

  lemma AdvanceKeepsUsers(b: Books, c: Call, f: Fault)
    ensures Advance(b, c, f).0.users == b.users
  {}

  predicate CapsThroughout(s: System, actions: seq<Action>) {
    CapsHold(Run(s, actions).books) && (actions == [] || CapsThroughout(s, actions[..|actions| - 1]))
  }

  predicate NeverCutsBelow(s: System, actions: seq<Action>) {
    actions == [] ||
    (&& NeverCutsBelow(s, actions[..|actions| - 1])
     && !CutsBelow(Run(s, actions[..|actions| - 1]), actions[|actions| - 1]))
  }

  lemma CapsNow(s: System, actions: seq<Action>)
    requires CapsThroughout(s, actions)
    ensures CapsHold(Run(s, actions).books)
  {}

  /**
   However charges, credits and PATCHes interleave, nobody is ever past the cap exactly when no PATCH cuts one
   below what is spent.
   */
  lemma {:induction false} CapsHoldExactly(s: System, actions: seq<Action>)
    requires CapsHold(s.books)
    ensures CapsThroughout(s, actions) <==> NeverCutsBelow(s, actions)
  {
    if actions != [] {
      var front, last := actions[..|actions| - 1], actions[|actions| - 1];
      CapsHoldExactly(s, front);
      if CapsThroughout(s, front) {
        CapsNow(s, front);
        NextKeepsCapsExactly(Run(s, front), last);
      }
    }
  }

  lemma AccountsApart(s: System, a: Action)
    requires Sound(s) && (a.AddUser? || a.PatchUser? || a.DropUser? || a.AddOrg?)
    ensures Sound(Next(s, a)) && Extends(s.books, Next(s, a).books)
  {
    var b' := Next(s, a).books;
    assert forall org :: BalanceOf(b', org) == BalanceOf(s.books, org);
    CallsStaySound(s.books, b', s.calls);
  }

  lemma NextKeepsSound(s: System, a: Action)
    requires Sound(s)
    ensures Sound(Next(s, a)) && Extends(s.books, Next(s, a).books)
  {
    match a
    case Receive(req) =>
    case Step(i, f) => StepKeepsSound(s, i, f);
    case SaveOrder(id, order) => SaveOrderKeepsSound(s, id, order);
    case Debit(org, actor, amount) =>
      DebitKeepsSound(s.books, org, actor, amount);
      CallsStaySound(s.books, Next(s, a).books, s.calls);
    case AddUser(_, _) => AccountsApart(s, a);
    case PatchUser(_, _, _) => AccountsApart(s, a);
    case DropUser(_) => AccountsApart(s, a);
    case AddOrg(_) => AccountsApart(s, a);
    case ManualCredit(org, amount) =>
      CreditKeepsSound(s.books, org, amount, NoOrder, NoPayment);
      CallsStaySound(s.books, Next(s, a).books, s.calls);
  }

  /**
   Every interleaving of deliveries, browser calls, order creation, charges and manual credits,
   with any step failing or its commit answer lost, keeps the books sound: one ledger row per payment,
   deposits worth their order's amount, and a "credited" or "replayed" answer only with the row in place.
   Orders keep naming users and organisations there are, so a delivery's credit meets both foreign keys.
   */
  lemma {:induction false} RunKeepsSound(s: System, actions: seq<Action>)
    requires Sound(s)
    ensures Sound(Run(s, actions)) && Extends(s.books, Run(s, actions).books)
  {
    if actions != [] {
      RunKeepsSound(s, actions[..|actions| - 1]);
      NextKeepsSound(Run(s, actions[..|actions| - 1]), actions[|actions| - 1]);
    }
  }

  /**
   The user deletion first sets the orders' actor to NULL, which that column does not allow: whoever created an
   order stays a user over every run, and deleting a user succeeds exactly for those who created none.
   */
  lemma PayersAreNeverDeleted(s: System, actions: seq<Action>, user: int)
    requires Sound(s) && user in s.books.users
    ensures (exists id :: id in s.books.orders && s.books.orders[id].actor == user) ==>
              user in Run(s, actions).books.users
    ensures var s' := Next(s, DropUser(user));
            && (user !in s'.books.users <==> forall id :: id in s.books.orders ==> s.books.orders[id].actor != user)
            && s' == s.(books := s.books.(users := s'.books.users))
            && forall u :: u in s.books.users && u != user ==>
                 u in s'.books.users && s'.books.users[u] == s.books.users[u]
  {
    RunKeepsSound(s, actions);
  }

  /** What the ledger rows of `org` with a payment id are worth by their orders, never by what a webhook claimed. */
  function OrderTotal(orders: map<OrderId, Order>, rows: seq<Row>, org: int): int {
    if rows == [] then 0
    else
      var last := rows[|rows| - 1];
      OrderTotal(orders, rows[..|rows| - 1], org)
      + if last.org == org && last.payment != NoPayment && last.order in orders then orders[last.order].amount else 0
  }

  /** The charges and manual credits of `org`. */
  function OtherTotal(rows: seq<Row>, org: int): int {
    if rows == [] then 0
    else
      var last := rows[|rows| - 1];
      OtherTotal(rows[..|rows| - 1], org) + if last.org == org && last.payment == NoPayment then last.amount else 0
  }

  lemma {:induction false} SumSplits(ledger: seq<Row>, n: nat, orders: map<OrderId, Order>, org: int)
    requires n <= |ledger|
    requires forall i :: 0 <= i < |ledger| ==> FromOrder(orders, ledger[i])
    ensures SumFor(ledger, org)
         == SumFor(ledger[..n], org) + OrderTotal(orders, ledger[n..], org) + OtherTotal(ledger[n..], org)
    decreases |ledger|
  {
    if n == |ledger| {
      assert ledger[..n] == ledger;
    } else {
      var front := ledger[..|ledger| - 1];
      SumSplits(front, n, orders, org);
      assert front[..n] == ledger[..n];
      assert ledger[n..][..|ledger[n..]| - 1] == front[n..];
      assert FromOrder(orders, ledger[|ledger| - 1]);
    }
  }

  /**
   Over any run, a balance moves by exactly the order amounts of the payments credited, plus charges and
   manual credits.
   */
  lemma BalanceIsOrderAmounts(s: System, actions: seq<Action>, org: int)
    requires Sound(s)
    ensures var b' := Run(s, actions).books;
            && s.books.ledger <= b'.ledger
            && var added := b'.ledger[|s.books.ledger|..];
               BalanceOf(b', org) ==
               BalanceOf(s.books, org) + OrderTotal(b'.orders, added, org) + OtherTotal(added, org)
  {
    RunKeepsSound(s, actions);
    var b' := Run(s, actions).books;
    SumSplits(b'.ledger, |s.books.ledger|, b'.orders, org);
    assert b'.ledger[..|s.books.ledger|] == s.books.ledger;
    assert BalanceOf(b', org) == SumFor(b'.ledger, org);
    assert BalanceOf(s.books, org) == SumFor(s.books.ledger, org);
  }

  /** A failed read or write ends the call or leads to its recovery; it moves nothing and is never called a success. */
  lemma FailuresMoveNothing(b: Books, c: Call)
    ensures var (b', c') := Advance(b, c, Fails);
            && b' == b
            && (c' != c ==> c'.stage.Replied? || c'.stage.CreditFailed?)
            && (c' != c && c'.stage.Replied? ==> c'.stage.reply in {ServerError, BadRequest, Ignored})
            && (c.stage.OrderFound? && c.req.WebhookDelivery? ==> c'.stage == Replied(ServerError))
            && (c.stage.PaymentUnseen? && c.req.BrowserVerify? ==> c'.stage == Replied(ServerError))
            && (c.stage.Ready? ==> c'.stage == CreditFailed(c.stage.o))
            && (c.stage.CreditFailed? ==> c'.stage == Replied(ServerError))
  {}

  /** An answer lost on the way to the handler is never reported a success either; a lost credit is looked up again. */
  lemma LostAnswersAreRechecked(b: Books, c: Call)
    ensures var (b', c') := Advance(b, c, AnswerLost);
            && (c' != c ==> c'.stage !in {Replied(Credited), Replied(Replayed)})
            && (c.stage.Ready? && c.stage.o.amount > 0 ==> c'.stage == CreditFailed(c.stage.o))
            && (!c.stage.Ready? ==> b' == b)
  {}

  /** The last look: "replayed" exactly if the payment is in the ledger, from the browser for its own organisation. */
  lemma RecoversExactly(b: Books, c: Call)
    requires c.stage.CreditFailed?
    ensures var (b', c') := Advance(b, c, Fine);
            && b' == b && c'.stage in {Replied(Replayed), Replied(ServerError)}
            && (c.req.WebhookDelivery? ==> (c'.stage == Replied(Replayed) <==> HasPayment(b.ledger, c.req.payment)))
            && (c.req.BrowserVerify? ==>
                  (c'.stage == Replied(Replayed) <==>
                   HasPayment(b.ledger, c.req.payment) && PaymentOrg(b.ledger, c.req.payment) == c.req.org))
  {}

  /** A row, once written, answers every later delivery of that payment without touching the books. */
  lemma RedeliveryIsHarmless(s: System, c: Call, o: Order, f: Fault)
    requires Sound(s) && c.req.WebhookDelivery? && SoundCall(s.books, c) && HasPayment(s.books.ledger, c.req.payment)
    requires c.stage == Ready(o)
    ensures var (b', c') := Advance(s.books, c, f);
            b'.ledger == s.books.ledger && (forall org :: BalanceOf(b', org) == BalanceOf(s.books, org))
            && c'.stage == CreditFailed(o) && Advance(b', c', Fine).1.stage == Replied(Replayed)
  {}

  // ---------- what vouches for a deposit ----------

  /** Razorpay says that the payment was captured, or the browser's signature verifies. */
  predicate Genuine(req: Request) {
    if req.WebhookDelivery? then req.captured else req.signed
  }

  /** A call that is past its checks is genuine. */
  predicate Checked(c: Call) {
    c.stage.OrderFound? || c.stage.Ready? || c.stage.CreditFailed? || c.stage == Replied(Credited) ==> Genuine(c.req)
  }

  predicate AllChecked(s: System) {
    forall i :: 0 <= i < |s.calls| ==> Checked(s.calls[i])
  }

  /** The request is for exactly this deposit. */
  predicate Vouches(req: Request, row: Row) {
    && Genuine(req) && req.payment == row.payment && req.order == row.order
    && (req.BrowserVerify? ==> req.org == row.org)
  }

  predicate VouchedFor(calls: seq<Call>, row: Row) {
    exists i :: 0 <= i < |calls| && Vouches(calls[i].req, row)
  }

  /** An unsigned browser call and an uncaptured delivery never move anything, and are never answered "credited". */
  lemma FalseCallsMoveNothing(b: Books, c: Call, f: Fault)
    requires Checked(c)
    ensures var (b', c') := Advance(b, c, f);
            Checked(c') && (!Genuine(c.req) ==> b' == b && c'.stage != Replied(Credited))
  {}

  /** What one step appends to the ledger with a payment id is what its own request asks for. */
  lemma StepIsVouchedFor(b: Books, c: Call, f: Fault)
    requires Checked(c) && SoundCall(b, c)
    ensures var (b', c') := Advance(b, c, f);
            && c'.req == c.req && b.ledger <= b'.ledger
            && forall k :: |b.ledger| <= k < |b'.ledger| ==> Vouches(c.req, b'.ledger[k])
  {}

  lemma VouchedLater(calls: seq<Call>, calls': seq<Call>, row: Row)
    requires VouchedFor(calls, row) && |calls| <= |calls'|
    requires forall i :: 0 <= i < |calls| ==> calls'[i].req == calls[i].req
    ensures VouchedFor(calls', row)
  {
    var i :| 0 <= i < |calls| && Vouches(calls[i].req, row);
    assert Vouches(calls'[i].req, row);
  }

  lemma NextIsVouchedFor(s: System, a: Action)
    requires Sound(s) && AllChecked(s)
    ensures var s' := Next(s, a);
            && AllChecked(s') && s.books.ledger <= s'.books.ledger && |s.calls| <= |s'.calls|
            && (forall i :: 0 <= i < |s.calls| ==> s'.calls[i].req == s.calls[i].req)
            && forall k :: |s.books.ledger| <= k < |s'.books.ledger| && s'.books.ledger[k].payment != NoPayment ==>
                 VouchedFor(s'.calls, s'.books.ledger[k])
  {
    if a.Step? && a.call < |s.calls| {
      var c, s' := s.calls[a.call], Next(s, a);
      assert Checked(c) && SoundCall(s.books, c);
      FalseCallsMoveNothing(s.books, c, a.fault);
      StepIsVouchedFor(s.books, c, a.fault);
      forall k | |s.books.ledger| <= k < |s'.books.ledger| ensures VouchedFor(s'.calls, s'.books.ledger[k]) {
        assert Vouches(s'.calls[a.call].req, s'.books.ledger[k]);
      }
    }
  }

  /**
   Every deposit that a run adds, in whatever interleaving, was asked for by a captured webhook delivery or a signed
   browser call of the run, for this very payment and order and, from the browser, by the organisation it goes to.
   */
  lemma {:induction false} DepositsAreVouchedFor(s: System, actions: seq<Action>)
    requires Sound(s) && AllChecked(s)
    ensures var s' := Run(s, actions);
            && AllChecked(s') && s.books.ledger <= s'.books.ledger
            && forall k :: |s.books.ledger| <= k < |s'.books.ledger| && s'.books.ledger[k].payment != NoPayment ==>
                 VouchedFor(s'.calls, s'.books.ledger[k])
  {
    if actions != [] {
      var front, last := actions[..|actions| - 1], actions[|actions| - 1];
      DepositsAreVouchedFor(s, front);
      RunKeepsSound(s, front);
      var before, after := Run(s, front), Run(s, actions);
      NextIsVouchedFor(before, last);
      forall k | |s.books.ledger| <= k < |after.books.ledger| && after.books.ledger[k].payment != NoPayment
        ensures VouchedFor(after.calls, after.books.ledger[k])
      {
        if k < |before.books.ledger| { VouchedLater(before.calls, after.calls, after.books.ledger[k]); }
      }
    }
  }

  // ---------- the handlers served alone, and the store they drive ----------

  function Rank(s: Stage): nat {
    match s
    case Arrived => 4
    case OrderFound(_) => 3
    case PaymentUnseen => 3
    case Ready(_) => 2
    case CreditFailed(_) => 1
    case Replied(_) => 0
  }

  /** Each kind of call has one stage that is the other kind's. */
  predicate Servable(c: Call) {
    if c.req.WebhookDelivery? then c.stage != PaymentUnseen else !c.stage.OrderFound?
  }

  /** One delivery or browser call with no interference and no fault. */
  function Serve(b: Books, c: Call): (Books, Reply)
    requires Servable(c)
    decreases Rank(c.stage)
  {
    if c.stage.Replied? then (b, c.stage.reply)
    else
      var (b', c') := Advance(b, c, Fine);
      Serve(b', c')
  }

  /** `n` steps of one call, back to back and without a fault. */
  function Steps(s: System, i: nat, n: nat): System
    decreases n
  {
    if n == 0 then s else Steps(Next(s, Step(i, Fine)), i, n - 1)
  }

  lemma {:induction false} StepsServe(s: System, i: nat, n: nat)
    requires i < |s.calls| && Rank(s.calls[i].stage) <= n
    requires Servable(s.calls[i])
    ensures var (b, reply) := Serve(s.books, s.calls[i]);
            Steps(s, i, n) == System(b, s.calls[i := s.calls[i].(stage := Replied(reply))])
    decreases n
  {
    if n > 0 {
      var s' := Next(s, Step(i, Fine));
      if s.calls[i].stage.Replied? {
        assert s'.calls == s.calls;
      } else {
        assert Serve(s.books, s.calls[i]) == Serve(s'.books, s'.calls[i]);
      }
      StepsServe(s', i, n - 1);
    } else {
      assert s.calls == s.calls[i := s.calls[i]];
    }
  }

  /** In a run, a request that arrives and is served at once gets `Serve`'s answer and books; no other call moves. */
  lemma ServedAtOnce(s: System, req: Request)
    ensures var (b, reply) := Serve(s.books, Call(req, Arrived));
            Steps(Next(s, Receive(req)), |s.calls|, 4) == System(b, s.calls + [Call(req, Replied(reply))])
  {
    StepsServe(Next(s, Receive(req)), |s.calls|, 4);
  }

  /** An order is stored for known parties only, and kept as it was; a top-up lands for known organisations. */
  lemma ParametersTakeEffect(s: System, id: OrderId, order: Order, org: int, amount: int)
    ensures var s' := Next(s, SaveOrder(id, order));
            && s' == s.(books := s.books.(orders := s'.books.orders))
            && (id in s'.books.orders <==>
                  || id in s.books.orders
                  || (id != NoOrder && 0 < order.amount && order.org in s.books.orgs && Known(s.books, order.actor)))
            && (forall x :: x in s.books.orders ==> x in s'.books.orders && s'.books.orders[x] == s.books.orders[x])
            && (forall x :: x in s'.books.orders && x !in s.books.orders ==> x == id && s'.books.orders[x] == order)
    ensures Next(s, AddOrg(org)) == s.(books := s.books.(orgs := s.books.orgs + {org}))
    ensures var b' := Next(s, ManualCredit(org, amount)).books;
            BalanceOf(b', org) == BalanceOf(s.books, org) + if 0 < amount && org in s.books.orgs then amount else 0
  {}

  /** A well-formed delivery for a known order always ends with the payment in the ledger, credited now or before. */
  lemma DeliveryLands(b: Books, p: PaymentId, order: OrderId, amount: int)
    requires SoundBooks(b) && p != NoPayment && order in b.orders && 0 < amount
    ensures var (b', reply) := Serve(b, Call(WebhookDelivery(p, order, amount, true), Arrived));
            && reply == (if HasPayment(b.ledger, p) then Replayed else Credited)
            && HasPayment(b'.ledger, p)
            && BalanceOf(b', b.orders[order].org)
               == BalanceOf(b, b.orders[order].org) + if HasPayment(b.ledger, p) then 0 else b.orders[order].amount
  {
    var o := b.orders[order];
    var c := Call(WebhookDelivery(p, order, amount, true), Arrived);
    var c1, c2 := c.(stage := OrderFound(o)), c.(stage := Ready(o));
    assert Serve(b, c) == Serve(b, c1);
    if HasPayment(b.ledger, p) {
      var done := c.(stage := Replied(Replayed));
      assert Advance(b, c1, Fine) == (b, done);
      assert Serve(b, done) == (b, Replayed);
    } else {
      CreditKeepsSound(b, o.org, o.amount, order, p);
      var (b', c3) := Advance(b, c2, Fine);
      assert c3.stage == Replied(Credited);
      assert Serve(b, c2) == Serve(b', c3);
      assert Serve(b, c1) == Serve(b, c2);
    }
  }

  /** A delivery served alone: each answer comes exactly under its condition, and only "credited" moves anything. */
  lemma DeliveryAnswersExactly(b: Books, p: PaymentId, order: OrderId, amount: int, captured: bool)
    requires SoundBooks(b)
    ensures var (b', reply) := Serve(b, Call(WebhookDelivery(p, order, amount, captured), Arrived));
            var formed := p != NoPayment && order != NoOrder && 0 < amount;
            && (reply == BadRequest <==> !formed)
            && (reply == Ignored <==> formed && !captured)
            && (reply == UnknownOrder <==> formed && captured && order !in b.orders)
            && (reply == Replayed <==> formed && captured && order in b.orders && HasPayment(b.ledger, p))
            && (reply == Credited <==> formed && captured && order in b.orders && !HasPayment(b.ledger, p))
            && (reply != Credited ==> b' == b)
  {
    if p != NoPayment && order in b.orders && 0 < amount && captured {
      DeliveryLands(b, p, order, amount);
      var c := Call(WebhookDelivery(p, order, amount, true), Arrived);
      var c1 := c.(stage := OrderFound(b.orders[order]));
      assert Serve(b, c) == Serve(b, c1);
      if HasPayment(b.ledger, p) { assert Serve(b, c1) == Serve(b, c.(stage := Replied(Replayed))); }
    }
  }

  /**
   A browser call served alone: it is credited exactly if it is signed, its order is its own organisation's and the
   payment is new; it is told "replayed" exactly if the payment is there for its organisation.
   */
  lemma BrowserAnswersExactly(b: Books, p: PaymentId, order: OrderId, org: int, signed: bool)
    requires SoundBooks(b)
    ensures var (b', reply) := Serve(b, Call(BrowserVerify(p, order, org, signed), Arrived));
            var formed := p != NoPayment && order != NoOrder;
            var unseen := formed && !HasPayment(b.ledger, p);
            && (reply == Replayed <==> formed && HasPayment(b.ledger, p) && PaymentOrg(b.ledger, p) == org)
            && (reply == Credited <==> unseen && order in b.orders && b.orders[order].org == org && signed)
            && (reply == Forbidden <==>
                  || (formed && HasPayment(b.ledger, p) && PaymentOrg(b.ledger, p) != org)
                  || (unseen && order in b.orders && b.orders[order].org != org))
            && (reply in {Replayed, Credited, Forbidden, BadRequest})
            && (reply != Credited ==> b' == b)
            && (reply == Credited ==> b' == Post(b, org, b.orders[order].amount, order, p))
  {
    var c := Call(BrowserVerify(p, order, org, signed), Arrived);
    var (_, c1) := Advance(b, c, Fine);
    assert Serve(b, c) == Serve(b, c1);
    if c1.stage == PaymentUnseen {
      var (_, c2) := Advance(b, c1, Fine);
      assert Serve(b, c1) == Serve(b, c2);
      if c2.stage.Ready? {
        var (b', c3) := Advance(b, c2, Fine);
        assert c3.stage == Replied(Credited);
        assert Serve(b, c2) == Serve(b', c3);
      }
    }
  }

  class Store {
    var orders: map<OrderId, Order>
    var ledger: seq<Row>
    var balances: map<int, int>
    var users: map<int, User>
    var orgs: set<int>

    function Snapshot(): Books
      reads this
    {
      Books(orders, ledger, balances, users, orgs)
    }

    constructor ()
      ensures Snapshot() == Books(map[], [], map[], map[], {}) && SoundBooks(Snapshot())
    {
      orders, ledger, balances, users, orgs := map[], [], map[], map[], {};
    }

    method FindByPaymentId(p: PaymentId) returns (found: bool)
      ensures found <==> HasPayment(ledger, p)
    {
      found := false;
      for i := 0 to |ledger|
        invariant found <==> HasPayment(ledger[..i], p)
      {
        if ledger[i].payment == p { found := true; }
        assert forall j :: 0 <= j < i ==> ledger[..i + 1][j] == ledger[..i][j];
        assert ledger[..i + 1][i] == ledger[i];
      }
      assert ledger[..|ledger|] == ledger;
    }

    /**
     ensureWallet, then one transaction: move the balance, insert the row, roll back if the unique index
     refuses it.
     */
    method CreditWallet(org: int, amount: int, order: OrderId, p: PaymentId) returns (r: CreditResult)
      modifies this
      ensures (Snapshot(), r) == Credit(old(Snapshot()), org, amount, order, p)
    {
      if amount <= 0 { return InvalidAmount; }
      if org !in orgs { return UnknownOrg; }
      if org !in balances { balances := balances[org := 0]; }
      var savepoint := balances;
      balances := balances[org := balances[org] + amount];
      var row := Row(org, amount, balances[org], order, p);
      var taken := false;
      if p != NoPayment { taken := FindByPaymentId(p); }
      if taken {
        balances := savepoint;
        return UniqueViolation;
      }
      ledger := ledger + [row];
      assert balances == Post(old(Snapshot()), org, amount, order, p).balances;
      return Committed(row);
    }

    /**
     One transaction: take the amount if the balance covers it, write the row, count it for the actor, or roll
     back.
     */
    method Debit(org: int, actor: int, amount: int) returns (charged: bool)
      requires SoundBooks(Snapshot())
      modifies this
      ensures Snapshot() == Charge(old(Snapshot()), org, actor, amount)
      ensures charged <==>
              && 0 < amount <= BalanceOf(old(Snapshot()), org) && actor > 0 && actor in old(users)
              && (old(users)[actor].cap.Some? ==> old(users)[actor].spent + amount <= old(users)[actor].cap.value)
    {
      if amount <= 0 || org !in orgs { return false; }
      if org !in balances { balances := balances[org := 0]; }
      if balances[org] < amount { return false; }
      var savedBalances, savedLedger := balances, ledger;
      balances := balances[org := balances[org] - amount];
      if actor <= 0 || actor !in users {
        balances := savedBalances;
        return false;
      }
      ledger := ledger + [Row(org, -amount, balances[org], NoOrder, NoPayment)];
      var u := users[actor];
      if u.cap.Some? && u.spent + amount > u.cap.value {
        balances, ledger := savedBalances, savedLedger;
        return false;
      }
      users := users[actor := u.(spent := u.spent + amount)];
      assert balances == Post(old(Snapshot()), org, -amount, NoOrder, NoPayment).balances;
      return true;
    }

    method HandlePaymentCaptured(p: PaymentId, order: OrderId, amount: int, captured: bool) returns (reply: Reply)
      modifies this
      ensures (Snapshot(), reply)
           == Serve(old(Snapshot()), Call(WebhookDelivery(p, order, amount, captured), Arrived))
    {
      if p == NoPayment || order == NoOrder || amount <= 0 { return BadRequest; }
      if !captured { return Ignored; }
      if order !in orders { return UnknownOrder; }
      var o := orders[order];
      ghost var c := Call(WebhookDelivery(p, order, amount, captured), Arrived);
      ghost var c1, c2, c3 := c.(stage := OrderFound(o)), c.(stage := Ready(o)), c.(stage := CreditFailed(o));
      assert Serve(Snapshot(), c) == Serve(Snapshot(), c1);
      var existing := FindByPaymentId(p);
      if existing { return Replayed; }
      assert Serve(Snapshot(), c1) == Serve(Snapshot(), c2);
      var r := CreditWallet(o.org, o.amount, order, p);
      if r.Committed? { return Credited; }
      assert Serve(old(Snapshot()), c2) == Serve(Snapshot(), c3);
      existing := FindByPaymentId(p);
      if existing { return Replayed; }
      return ServerError;
    }
  }
}
