/** `src/controllers/payment/payment.controller.ts`: ordering a payment for
    a registration from the gateway, verifying the gateway's signature of a
    completed payment, and reporting a registration's payment. The
    gateway's order service is a function parameter (`None` when the call
    throws); the HMAC-SHA256 under the key secret is the store's `sign`.
    Amounts are integer paise: a DECIMAL(10,2) fee times 100, rounded, is
    exactly its paise. */
module PaymentController {
  import opened Http
  import opened Schema
  import opened Db

  /** The registration exists, belongs to `user`, and its joins with
      `events` and `users` find their rows (`WHERE r.registration_id = $1
      AND r.student_id = $2`). */
  predicate OwnedBy(users: map<UserId, User>, events: map<EventId, Event>, regs: map<RegId, Registration>,
                    k: RegId, user: UserId) {
    k in regs && regs[k].studentId == user && regs[k].eventId in events && user in users
  }

  /** The payment row of a registration, if it has one; UNIQUE(registration_id)
      makes it the only one. */
  ghost function PaymentOf(payments: map<PaymentId, Payment>, k: RegId): (o: Option<PaymentId>)
    ensures o.Some? ==> o.value in payments && payments[o.value].registrationId == k
    ensures o.None? ==> forall p :: p in payments ==> payments[p].registrationId != k
  {
    if exists p :: p in payments && payments[p].registrationId == k then
      var p :| p in payments && payments[p].registrationId == k; Some(p)
    else None
  }

  lemma PaymentOfUnique(payments: map<PaymentId, Payment>, k: RegId, p: PaymentId)
    requires OnePaymentPerRegistration(payments)
    requires p in payments && payments[p].registrationId == k
    ensures PaymentOf(payments, k) == Some(p)
  {
  }

  // ---------------------------------------------------------------------
  // initiatePayment

  /** What `initiatePayment` asks the gateway for (67-76): the fee in paise,
      in rupees, with the registration as the receipt. */
  datatype OrderRequest = OrderRequest(amountPaise: int, currency: string, registrationId: RegId)

  const Currency: string := "INR"

  /** The checks of `initiatePayment` before the gateway is called, in their
      order: both ids given (19-24), the caller's registration found
      (39-45), the event not free (50-56), not paid yet (58-64). */
  function InitiateRefusal(users: map<UserId, User>, events: map<EventId, Event>, regs: map<RegId, Registration>,
                           userId: Option<UserId>, registrationId: Option<RegId>): (r: Option<Reason>)
    ensures r == Some(MissingPaymentFields) <==> userId.None? || registrationId.None?
    ensures r == Some(RegistrationNotFound) <==>
              userId.Some? && registrationId.Some? && !OwnedBy(users, events, regs, registrationId.value, userId.value)
    ensures r.None? <==>
              && userId.Some? && registrationId.Some?
              && OwnedBy(users, events, regs, registrationId.value, userId.value)
              && events[regs[registrationId.value].eventId].feePaise > 0
              && !regs[registrationId.value].paid
    ensures r.Some? ==> r.value in {MissingPaymentFields, RegistrationNotFound, FreeEvent, AlreadyPaid}
  {
    if userId.None? || registrationId.None? then Some(MissingPaymentFields)
    else if !OwnedBy(users, events, regs, registrationId.value, userId.value) then Some(RegistrationNotFound)
    else
      var reg := regs[registrationId.value];
      if events[reg.eventId].feePaise <= 0 then Some(FreeEvent)
      else if reg.paid then Some(AlreadyPaid)
      else None
  }

  /** A paid registration is never ordered again: since a registration is
      paid exactly when its payment is completed, an order that passes the
      checks never overwrites a completed payment. */
  lemma InitiateSparesCompleted(users: map<UserId, User>, events: map<EventId, Event>,
                                regs: map<RegId, Registration>, payments: map<PaymentId, Payment>,
                                userId: Option<UserId>, registrationId: Option<RegId>)
    requires PaidMatchesPayments(regs, payments)
    requires InitiateRefusal(users, events, regs, userId, registrationId).None?
    ensures forall p :: p in payments && payments[p].registrationId == registrationId.value ==>
              payments[p].status != Completed
  {
    var k := registrationId.value;
    assert !regs[k].paid;
    assert !HasCompletedPayment(payments, k);
  }

  /** The `INSERT ... ON CONFLICT (registration_id) DO UPDATE` (80-86): a
      registration without a payment gets a pending one under the next key;
      one that has a payment gets that row's order, amount and status
      replaced, keeping its gateway payment id and signature. */
  ghost function UpsertPending(t: Tables, k: RegId, orderId: string, amountPaise: int): Tables
  {
    match PaymentOf(t.payments, k)
    case None =>
      Tables(t.users, t.registrations, t.teams, t.teamRegistrations,
             t.payments[t.nextId := Payment(k, orderId, None, None, amountPaise, Pending)], t.resetTokens, t.nextId + 1)
    case Some(p) =>
      Tables(t.users, t.registrations, t.teams, t.teamRegistrations,
             t.payments[p := Reordered(t.payments[p], orderId, amountPaise)], t.resetTokens, t.nextId)
  }

  /** The DO UPDATE of the upsert: a new order and amount, pending again. */
  function Reordered(row: Payment, orderId: string, amountPaise: int): (row': Payment)
    ensures row'.registrationId == row.registrationId && row'.status == Pending
    ensures row'.orderId == orderId && row'.amountPaise == amountPaise
    ensures row'.gatewayPaymentId == row.gatewayPaymentId && row'.signature == row.signature
  {
    row.(orderId := orderId, amountPaise := amountPaise, status := Pending)
  }

  /** A pending row under a key that is fresh or already holds the payment
      of the same unpaid registration keeps the payment invariants. */
  lemma PendingPaymentsOk(regs: map<RegId, Registration>, payments: map<PaymentId, Payment>,
                          sign: string -> string, key: PaymentId, row: Payment)
    requires PaymentsOk(regs, payments, sign)
    requires row.status == Pending && row.registrationId in regs && !regs[row.registrationId].paid
    requires key in payments ==> payments[key].registrationId == row.registrationId
    requires key !in payments ==> forall p :: p in payments ==> payments[p].registrationId != row.registrationId
    ensures PaymentsOk(regs, payments[key := row], sign)
  {
    var payments' := payments[key := row];
    forall r | r in regs ensures regs[r].paid <==> HasCompletedPayment(payments', r) {
      if HasCompletedPayment(payments', r) {
        var p :| p in payments' && payments'[p].registrationId == r && payments'[p].status == Completed;
        assert p != key && payments[p] == payments'[p];
      }
      if HasCompletedPayment(payments, r) {
        var p :| p in payments && payments[p].registrationId == r && payments[p].status == Completed;
        assert r != row.registrationId;
        assert p != key && payments'[p] == payments[p];
      }
    }
  }

  /** The upsert of a pending row keeps every invariant (the tables given
      field by field); `n'` is the key generator afterwards. */
  lemma PendingRowsOk(users: map<UserId, User>, regs: map<RegId, Registration>, teams: map<TeamId, Team>,
                      links: map<RegId, TeamId>, payments: map<PaymentId, Payment>,
                      tokens: map<TokenId, ResetToken>, n: nat, n': nat,
                      events: map<EventId, Event>, sign: string -> string, key: PaymentId, row: Payment)
    requires UsersOk(users) && EventsOk(events) && RegistrationsOk(users, events, regs)
    requires TeamsOk(events, regs, teams) && LinksOk(events, regs, teams, links)
    requires PaymentsOk(regs, payments, sign) && TokensOk(users, tokens)
    requires KeysBelow(regs, n) && KeysBelow(teams, n) && KeysBelow(payments, n) && KeysBelow(tokens, n)
    requires n <= n' && key < n'
    requires row.status == Pending && row.registrationId in regs && !regs[row.registrationId].paid
    requires key in payments ==> payments[key].registrationId == row.registrationId
    requires key !in payments ==> forall p :: p in payments ==> payments[p].registrationId != row.registrationId
    ensures TablesOk(Tables(users, regs, teams, links, payments[key := row], tokens, n'), events, sign)
  {
    PendingPaymentsOk(regs, payments, sign, key, row);
    TablesOkIntro(users, regs, teams, links, payments[key := row], tokens, n', events, sign);
  }

  /** Ordering an unpaid registration keeps every invariant. */
  lemma UpsertPendingKeeps(t: Tables, events: map<EventId, Event>, sign: string -> string,
                           k: RegId, orderId: string, amountPaise: int)
    requires TablesOk(t, events, sign)
    requires k in t.registrations && !t.registrations[k].paid
    ensures TablesOk(UpsertPending(t, k, orderId, amountPaise), events, sign)
  {
    match PaymentOf(t.payments, k)
    case None =>
      PendingRowsOk(t.users, t.registrations, t.teams, t.teamRegistrations, t.payments, t.resetTokens,
                    t.nextId, t.nextId + 1, events, sign, t.nextId, Payment(k, orderId, None, None, amountPaise, Pending));
    case Some(p) =>
      PendingRowsOk(t.users, t.registrations, t.teams, t.teamRegistrations, t.payments, t.resetTokens,
                    t.nextId, t.nextId, events, sign, p, Reordered(t.payments[p], orderId, amountPaise));
  }

  /** After the upsert the registration has exactly one payment, pending,
      for the new order and amount; every other payment and every other
      table is as it was. */
  lemma UpsertPendingRow(t: Tables, k: RegId, orderId: string, amountPaise: int)
    requires OnePaymentPerRegistration(t.payments) && KeysBelow(t.payments, t.nextId)
    ensures var t' := UpsertPending(t, k, orderId, amountPaise);
            && PaymentOf(t'.payments, k).Some?
            && t'.payments[PaymentOf(t'.payments, k).value].orderId == orderId
            && t'.payments[PaymentOf(t'.payments, k).value].amountPaise == amountPaise
            && t'.payments[PaymentOf(t'.payments, k).value].status == Pending
            && (forall p :: p in t.payments && t.payments[p].registrationId != k ==>
                  p in t'.payments && t'.payments[p] == t.payments[p])
            && t'.registrations == t.registrations && t'.users == t.users && t'.teams == t.teams
            && t'.teamRegistrations == t.teamRegistrations && t'.resetTokens == t.resetTokens
  {
    var t' := UpsertPending(t, k, orderId, amountPaise);
    match PaymentOf(t.payments, k)
    case None =>
      assert t.nextId !in t.payments;
      assert OnePaymentPerRegistration(t'.payments);
      PaymentOfUnique(t'.payments, k, t.nextId);
    case Some(p) =>
      assert OnePaymentPerRegistration(t'.payments);
      PaymentOfUnique(t'.payments, k, p);
  }

  /** The upsert as the handler runs it: the payment of the registration,
      if any, is found by its key. */
  method Upsert(t: Tables, k: RegId, orderId: string, amountPaise: int) returns (t': Tables)
    requires OnePaymentPerRegistration(t.payments)
    ensures t' == UpsertPending(t, k, orderId, amountPaise)
  {
    t' := Tables(t.users, t.registrations, t.teams, t.teamRegistrations,
                 t.payments[t.nextId := Payment(k, orderId, None, None, amountPaise, Pending)],
                 t.resetTokens, t.nextId + 1);
    if exists p :: p in t.payments && t.payments[p].registrationId == k {
      var p :| p in t.payments && t.payments[p].registrationId == k;
      PaymentOfUnique(t.payments, k, p);
      t' := Tables(t.users, t.registrations, t.teams, t.teamRegistrations,
                   t.payments[p := Reordered(t.payments[p], orderId, amountPaise)], t.resetTokens, t.nextId);
    }
  }

  /** What a successful `initiatePayment` reports (90-101). */
  datatype Initiated = Initiated(
    orderId: string,
    amountPaise: int,
    currency: string,
    eventName: string,
    userName: string,
    userEmail: string)

  /** `initiatePayment` (12-115): after the checks, one gateway order for the
      fee, then the upsert of a pending payment, in one transaction. A
      failing gateway call rolls back: a server error. */
  method InitiatePayment(db: Store, userId: Option<UserId>, registrationId: Option<RegId>,
                         createOrder: OrderRequest -> Option<string>) returns (r: Reply<Initiated>)
    requires db.Valid()
    modifies db
    ensures db.Valid()
    ensures r.Fail? ==> unchanged(db)
    ensures var refusal := InitiateRefusal(old(db.users), db.events, old(db.registrations), userId, registrationId);
            && (refusal.Some? ==> r == Fail(refusal.value))
            && (refusal.None? ==> r.Ok? || r == Fail(ServerError))
            && (refusal.None? ==>
                  var fee := db.events[old(db.registrations)[registrationId.value].eventId].feePaise;
                  (r.Ok? <==> createOrder(OrderRequest(fee, Currency, registrationId.value)).Some?))
    ensures r.Ok? ==>
              var k := registrationId.value; var reg := old(db.registrations)[k];
              var e := db.events[reg.eventId]; var user := old(db.users)[userId.value];
              && InitiateRefusal(old(db.users), db.events, old(db.registrations), userId, registrationId).None?
              && createOrder(OrderRequest(e.feePaise, Currency, k)) == Some(r.value.orderId)
              && db.Snapshot() == UpsertPending(old(db.Snapshot()), k, r.value.orderId, e.feePaise)
              && r.value == Initiated(r.value.orderId, e.feePaise, Currency, e.name, user.name, user.email)
  {
    var refusal := InitiateRefusal(db.users, db.events, db.registrations, userId, registrationId);
    if refusal.Some? {
      return Fail(refusal.value);
    }
    var k := registrationId.value;
    var t := db.Snapshot();
    var reg := t.registrations[k];
    var e := db.events[reg.eventId];
    var user := t.users[userId.value];
    var order := createOrder(OrderRequest(e.feePaise, Currency, k));
    if order.None? {
      return Fail(ServerError);
    }
    UpsertPendingKeeps(t, db.events, db.sign, k, order.value, e.feePaise);
    var t' := Upsert(t, k, order.value, e.feePaise);
    db.Commit(t');
    r := Ok(Initiated(order.value, e.feePaise, Currency, e.name, user.name, user.email));
  }

  // ---------------------------------------------------------------------
  // verifyPayment

  /** The lookup of `verifyPayment` (133-142): a payment for the order whose
      registration belongs to the caller and whose event exists. */
  predicate OrderOf(events: map<EventId, Event>, regs: map<RegId, Registration>, payments: map<PaymentId, Payment>,
                    p: PaymentId, orderId: string, user: UserId) {
    && p in payments && payments[p].orderId == orderId
    && payments[p].registrationId in regs
    && regs[payments[p].registrationId].studentId == user
    && regs[payments[p].registrationId].eventId in events
  }

  predicate HasOrder(events: map<EventId, Event>, regs: map<RegId, Registration>, payments: map<PaymentId, Payment>,
                     orderId: string, user: UserId) {
    exists p :: p in payments && OrderOf(events, regs, payments, p, orderId, user)
  }

  /** The order is found, and every payment row the lookup can return for
      it is completed (with one such row: that row is). */
  predicate OrderCompleted(events: map<EventId, Event>, regs: map<RegId, Registration>,
                           payments: map<PaymentId, Payment>, orderId: string, user: UserId) {
    && HasOrder(events, regs, payments, orderId, user)
    && forall p :: p in payments && OrderOf(events, regs, payments, p, orderId, user) ==> payments[p].status == Completed
  }

  /** The order is found, and no payment row the lookup can return for it
      is completed. */
  predicate OrderOutstanding(events: map<EventId, Event>, regs: map<RegId, Registration>,
                             payments: map<PaymentId, Payment>, orderId: string, user: UserId) {
    && HasOrder(events, regs, payments, orderId, user)
    && forall p :: p in payments && OrderOf(events, regs, payments, p, orderId, user) ==> payments[p].status != Completed
  }

  /** The payment row once verified (176-180): the gateway's payment id
      and signature recorded, status completed. */
  function CompletedRow(row: Payment, gatewayPaymentId: string, signature: string): (row': Payment)
    ensures row'.registrationId == row.registrationId && row'.orderId == row.orderId
    ensures row'.amountPaise == row.amountPaise && row'.status == Completed
    ensures row'.gatewayPaymentId == Some(gatewayPaymentId) && row'.signature == Some(signature)
  {
    row.(gatewayPaymentId := Some(gatewayPaymentId), signature := Some(signature), status := Completed)
  }

  /** The two updates of a verified payment (176-188): the payment is
      completed, and its registration is marked paid. */
  function CompletePayment(t: Tables, p: PaymentId, gatewayPaymentId: string, signature: string): Tables
    requires p in t.payments && t.payments[p].registrationId in t.registrations
  {
    var k := t.payments[p].registrationId;
    Tables(t.users, t.registrations[k := t.registrations[k].(paid := true)], t.teams, t.teamRegistrations,
           t.payments[p := CompletedRow(t.payments[p], gatewayPaymentId, signature)], t.resetTokens, t.nextId)
  }

  /** Completing a payment with the gateway's own signature keeps the
      payment invariants with its registration paid. */
  lemma CompletedPaymentsOk(regs: map<RegId, Registration>, payments: map<PaymentId, Payment>,
                            sign: string -> string, p: PaymentId, gatewayPaymentId: string, signature: string)
    requires PaymentsOk(regs, payments, sign)
    requires p in payments && payments[p].registrationId in regs
    requires signature == sign(SignedMessage(payments[p].orderId, gatewayPaymentId))
    ensures var k := payments[p].registrationId;
            PaymentsOk(regs[k := regs[k].(paid := true)],
                       payments[p := CompletedRow(payments[p], gatewayPaymentId, signature)], sign)
  {
    var k := payments[p].registrationId;
    var regs' := regs[k := regs[k].(paid := true)];
    var payments' := payments[p := CompletedRow(payments[p], gatewayPaymentId, signature)];
    forall r | r in regs' ensures regs'[r].paid <==> HasCompletedPayment(payments', r) {
      if r == k {
        assert payments'[p].registrationId == k && payments'[p].status == Completed;
      } else {
        if HasCompletedPayment(payments', r) {
          var q :| q in payments' && payments'[q].registrationId == r && payments'[q].status == Completed;
          assert q != p && payments[q] == payments'[q];
        }
        if HasCompletedPayment(payments, r) {
          var q :| q in payments && payments[q].registrationId == r && payments[q].status == Completed;
          assert q != p && payments'[q] == payments[q];
        }
      }
    }
  }

  /** The completion keeps every invariant (the tables given field by
      field). */
  lemma CompletedRowsOk(users: map<UserId, User>, regs: map<RegId, Registration>, teams: map<TeamId, Team>,
                        links: map<RegId, TeamId>, payments: map<PaymentId, Payment>,
                        tokens: map<TokenId, ResetToken>, n: nat,
                        events: map<EventId, Event>, sign: string -> string,
                        p: PaymentId, gatewayPaymentId: string, signature: string)
    requires UsersOk(users) && EventsOk(events) && RegistrationsOk(users, events, regs)
    requires TeamsOk(events, regs, teams) && LinksOk(events, regs, teams, links)
    requires PaymentsOk(regs, payments, sign) && TokensOk(users, tokens)
    requires KeysBelow(regs, n) && KeysBelow(teams, n) && KeysBelow(payments, n) && KeysBelow(tokens, n)
    requires p in payments && payments[p].registrationId in regs
    requires signature == sign(SignedMessage(payments[p].orderId, gatewayPaymentId))
    ensures var k := payments[p].registrationId;
            TablesOk(Tables(users, regs[k := regs[k].(paid := true)], teams, links,
                            payments[p := CompletedRow(payments[p], gatewayPaymentId, signature)], tokens, n),
                     events, sign)
  {
    var k := payments[p].registrationId;
    RewriteRegistrationKeeps(users, events, regs, teams, links, k, regs[k].(paid := true));
    CompletedPaymentsOk(regs, payments, sign, p, gatewayPaymentId, signature);
    TablesOkIntro(users, regs[k := regs[k].(paid := true)], teams, links,
                  payments[p := CompletedRow(payments[p], gatewayPaymentId, signature)], tokens, n, events, sign);
  }

  /** Verifying a payment with the gateway's signature keeps every
      invariant. */
  lemma CompletePaymentKeeps(t: Tables, events: map<EventId, Event>, sign: string -> string,
                             p: PaymentId, gatewayPaymentId: string, signature: string)
    requires TablesOk(t, events, sign)
    requires p in t.payments && t.payments[p].registrationId in t.registrations
    requires signature == sign(SignedMessage(t.payments[p].orderId, gatewayPaymentId))
    ensures TablesOk(CompletePayment(t, p, gatewayPaymentId, signature), events, sign)
  {
    CompletedRowsOk(t.users, t.registrations, t.teams, t.teamRegistrations, t.payments, t.resetTokens, t.nextId,
                    events, sign, p, gatewayPaymentId, signature);
  }

  /** After the completion the registration is paid and has a completed
      payment, and no other payment or registration changed. */
  lemma CompletePaymentPays(t: Tables, p: PaymentId, gatewayPaymentId: string, signature: string)
    requires p in t.payments && t.payments[p].registrationId in t.registrations
    ensures var t' := CompletePayment(t, p, gatewayPaymentId, signature); var k := t.payments[p].registrationId;
            && t'.registrations[k].paid && HasCompletedPayment(t'.payments, k)
            && t'.payments.Keys == t.payments.Keys && t'.registrations.Keys == t.registrations.Keys
            && (forall q :: q in t.payments && q != p ==> t'.payments[q] == t.payments[q])
            && (forall j :: j in t.registrations && j != k ==> t'.registrations[j] == t.registrations[j])
  {
    var t' := CompletePayment(t, p, gatewayPaymentId, signature);
    assert t'.payments[p].registrationId == t.payments[p].registrationId && t'.payments[p].status == Completed;
  }

  /** What a successful `verifyPayment` reports (192-201). */
  datatype Verified = Verified(registrationId: RegId, eventName: string, amountPaise: int, paymentId: string)

  /** `verifyPayment` (117-215): all four fields given, a payment for the
      order that is the caller's, not completed yet, and a signature equal
      to the HMAC of `order_id + "|" + payment_id`; then the payment is
      completed and the registration paid, in one transaction. Several
      payments may carry the same order id; any one of them is the row the
      query returns first. */
  method VerifyPayment(db: Store, userId: Option<UserId>, orderId: Option<string>,
                       gatewayPaymentId: Option<string>, signature: Option<string>) returns (r: Reply<Verified>)
    requires db.Valid()
    modifies db
    ensures db.Valid()
    ensures r.Fail? ==> unchanged(db)
    ensures r.Fail? ==> r.reason in {MissingPaymentFields, PaymentNotFound, PaymentAlreadyVerified, InvalidSignature}
    ensures r == Fail(MissingPaymentFields) <==>
              userId.None? || !Given(orderId) || !Given(gatewayPaymentId) || !Given(signature)
    ensures r == Fail(PaymentNotFound) <==>
              && userId.Some? && Given(orderId) && Given(gatewayPaymentId) && Given(signature)
              && !HasOrder(db.events, old(db.registrations), old(db.payments), orderId.value, userId.value)
    ensures r == Fail(InvalidSignature) ==> db.sign(SignedMessage(orderId.value, gatewayPaymentId.value)) != signature.value
    ensures r == Fail(PaymentAlreadyVerified) ==>
              exists p :: p in old(db.payments) && OrderOf(db.events, old(db.registrations), old(db.payments), p,
                                                           orderId.value, userId.value)
                          && old(db.payments)[p].status == Completed
    ensures userId.Some? && Given(orderId) && Given(gatewayPaymentId) && Given(signature) ==>
              var regs, payments := old(db.registrations), old(db.payments);
              && (OrderCompleted(db.events, regs, payments, orderId.value, userId.value) ==>
                    r == Fail(PaymentAlreadyVerified))
              && (OrderOutstanding(db.events, regs, payments, orderId.value, userId.value) ==>
                    (r.Ok? <==> db.sign(SignedMessage(orderId.value, gatewayPaymentId.value)) == signature.value))
    ensures r.Ok? ==>
              && db.sign(SignedMessage(orderId.value, gatewayPaymentId.value)) == signature.value
              && PaymentOf(old(db.payments), r.value.registrationId).Some?
              && var p := PaymentOf(old(db.payments), r.value.registrationId).value;
                 && OrderOf(db.events, old(db.registrations), old(db.payments), p, orderId.value, userId.value)
                 && old(db.payments)[p].status != Completed
                 && db.Snapshot() == CompletePayment(old(db.Snapshot()), p, gatewayPaymentId.value, signature.value)
                 && r.value.amountPaise == old(db.payments)[p].amountPaise
                 && r.value.paymentId == gatewayPaymentId.value
                 && r.value.eventName == db.events[old(db.registrations)[r.value.registrationId].eventId].name
  {
    if userId.None? || !Given(orderId) || !Given(gatewayPaymentId) || !Given(signature) {
      return Fail(MissingPaymentFields);
    }
    var user, order, paymentId, sig := userId.value, orderId.value, gatewayPaymentId.value, signature.value;
    var t := db.Snapshot();
    if !HasOrder(db.events, t.registrations, t.payments, order, user) {
      return Fail(PaymentNotFound);
    }
    var p :| p in t.payments && OrderOf(db.events, t.registrations, t.payments, p, order, user);
    var row := t.payments[p];
    if row.status == Completed {
      return Fail(PaymentAlreadyVerified);
    }
    if db.sign(SignedMessage(order, paymentId)) != sig {
      return Fail(InvalidSignature);
    }
    var k := row.registrationId;
    PaymentOfUnique(t.payments, k, p);
    CompletePaymentKeeps(t, db.events, db.sign, p, paymentId, sig);
    db.Commit(CompletePayment(t, p, paymentId, sig));
    r := Ok(Verified(k, db.events[t.registrations[k].eventId].name, row.amountPaise, paymentId));
  }

  // ---------------------------------------------------------------------
  // getPaymentStatus

  /** The payment columns of `getPaymentStatus`'s LEFT JOIN (259-267). */
  datatype PaymentDetails = PaymentDetails(
    paymentId: PaymentId,
    orderId: string,
    gatewayPaymentId: Option<string>,
    amountPaise: int,
    status: PaymentStatus)

  /** What `getPaymentStatus` reports (251-269). */
  datatype PaymentState = PaymentState(
    registrationId: RegId,
    eventName: string,
    feePaise: int,
    paymentRequired: bool,
    paid: bool,
    details: Option<PaymentDetails>)

  /** `getPaymentStatus` (217-279): the caller's registration (its event
      joined, its payment left-joined), or 404. Reads only. */
  method GetPaymentStatus(db: Store, userId: Option<UserId>, registrationId: Option<RegId>)
    returns (r: Reply<PaymentState>)
    requires db.Valid()
    ensures userId.None? || registrationId.None? ==> r == Fail(MissingPaymentFields)
    ensures r.Fail? ==> r.reason in {MissingPaymentFields, RegistrationNotFound}
    ensures userId.Some? && registrationId.Some? ==>
              (r.Ok? <==> && registrationId.value in db.registrations
                          && db.registrations[registrationId.value].studentId == userId.value
                          && db.registrations[registrationId.value].eventId in db.events)
    ensures r.Ok? ==>
              var k := registrationId.value; var reg := db.registrations[k]; var e := db.events[reg.eventId];
              && r.value.registrationId == k && r.value.eventName == e.name && r.value.feePaise == e.feePaise
              && (r.value.paymentRequired <==> e.feePaise > 0)
              && r.value.paid == reg.paid
              && (r.value.details.Some? <==> exists p :: p in db.payments && db.payments[p].registrationId == k)
              && (r.value.details.Some? ==>
                    var d := r.value.details.value;
                    && d.paymentId in db.payments && db.payments[d.paymentId].registrationId == k
                    && d == PaymentDetails(d.paymentId, db.payments[d.paymentId].orderId,
                                           db.payments[d.paymentId].gatewayPaymentId,
                                           db.payments[d.paymentId].amountPaise, db.payments[d.paymentId].status))
              && (r.value.paid ==> r.value.details.Some? && r.value.details.value.status == Completed)
  {
    if userId.None? || registrationId.None? {
      return Fail(MissingPaymentFields);
    }
    var k := registrationId.value;
    if !(k in db.registrations && db.registrations[k].studentId == userId.value
         && db.registrations[k].eventId in db.events) {
      return Fail(RegistrationNotFound);
    }
    var reg := db.registrations[k];
    var e := db.events[reg.eventId];
    var details: Option<PaymentDetails> := None;
    if exists p :: p in db.payments && db.payments[p].registrationId == k {
      var p :| p in db.payments && db.payments[p].registrationId == k;
      var row := db.payments[p];
      details := Some(PaymentDetails(p, row.orderId, row.gatewayPaymentId, row.amountPaise, row.status));
      if reg.paid {
        var q :| q in db.payments && db.payments[q].registrationId == k && db.payments[q].status == Completed;
        assert q == p;
      }
    }
    r := Ok(PaymentState(k, e.name, e.feePaise, e.feePaise > 0, reg.paid, details));
  }
}
