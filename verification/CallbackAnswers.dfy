/** What checkout, callback and worker do in every case, read off the order and the callback. */
module CallbackAnswers {
  import opened Wrappers
  import opened Subscriptions
  import opened Settlement

  /** Order i is the first with the checkout id. */
  ghost predicate IsFirst(orders: seq<Order>, checkoutId: string, i: nat) {
    i < |orders| && orders[i].checkoutId == checkoutId && forall j :: 0 <= j < i ==> orders[j].checkoutId != checkoutId
  }

  lemma {:induction false} FirstOrderFinds(orders: seq<Order>, checkoutId: string)
    ensures var found := FirstOrder(orders, checkoutId);
            if found.Some? then IsFirst(orders, checkoutId, found.value)
            else forall i :: 0 <= i < |orders| ==> orders[i].checkoutId != checkoutId
  {
    if orders != [] {
      FirstOrderFinds(orders[..|orders| - 1], checkoutId);
    }
  }

  lemma FirstOrderIs(orders: seq<Order>, checkoutId: string)
    ensures var found := FirstOrder(orders, checkoutId);
            && (forall i: nat :: found == Some(i) <==> IsFirst(orders, checkoutId, i))
            && (found.None? <==> forall i :: 0 <= i < |orders| ==> orders[i].checkoutId != checkoutId)
  {
    FirstOrderFinds(orders, checkoutId);
    var found := FirstOrder(orders, checkoutId);
    forall i: nat | IsFirst(orders, checkoutId, i) ensures found == Some(i) {
      assert found.Some? && !(i < found.value) && !(found.value < i);
    }
  }

  /** Checkout stores the order as it was placed, pending. */
  lemma CheckoutStores(s: State, checkoutId: string, username: string, devices: int, isHomeUser: bool, storeOk: bool)
    ensures var s' := Checkout(s, checkoutId, username, devices, isHomeUser, storeOk);
            && (s'.payments, s'.queue, s'.tables, s'.calls) == (s.payments, s.queue, s.tables, s.calls)
            && (!storeOk ==> s'.orders == s.orders)
            && (storeOk ==>
                  && |s'.orders| == |s.orders| + 1 && s'.orders[..|s.orders|] == s.orders
                  && var o := s'.orders[|s.orders|];
                     o.checkoutId == checkoutId && o.username == username && o.devices == devices
                     && o.isHomeUser == isHomeUser && o.status == "PENDING")
  {
  }

  /** Nothing but the queue, the tables and the log of calls is touched by a callback. */
  ghost predicate SameBooks(s: State, s': State) {
    s'.orders == s.orders && s'.payments == s.payments
  }

  ghost predicate Queues(s: State, s': State, cb: Callback) {
    s'.queue == s.queue + [Task(cb.checkoutId, cb.code)]
  }

  /** The call carries user, plan, duration and devices of the order and its plan, and the two clock readings. */
  ghost predicate CallsFor(c: Call, order: Order, cb: Callback) {
    && c.req.username == order.username && c.req.password.None? && c.req.isHomeUser == order.isHomeUser
    && c.req.plan == cb.plan && c.req.duration == cb.duration && c.req.devices == order.devices
    && c.asked == cb.asked && c.checked == cb.checked && (c.fault <==> !cb.fault.NoFault?)
  }

  /** A callback that finds no order does nothing; that of a failed payment is queued and grants nothing. */
  lemma FailedPaymentIsQueued(s: State, cb: Callback)
    ensures var s' := Received(s, cb);
            var lost := !cb.fetchOk || forall i :: 0 <= i < |s.orders| ==> s.orders[i].checkoutId != cb.checkoutId;
            && (lost ==> s' == s)
            && (!lost && cb.code != 0 ==>
                  && SameBooks(s, s') && s'.tables == s.tables && s'.calls == s.calls
                  && (if cb.enqueueOk then Queues(s, s', cb) else s'.queue == s.queue))
  {
    FirstOrderIs(s.orders, cb.checkoutId);
  }

  /** That of a successful payment makes one call for the first such order and is queued unless it was answered with 409 or 500. */
  lemma PaidCallback(s: State, cb: Callback, i: nat)
    requires cb.fetchOk && cb.code == 0 && IsFirst(s.orders, cb.checkoutId, i)
    ensures var s' := Received(s, cb);
            && SameBooks(s, s')
            && |s'.calls| == |s.calls| + 1 && s'.calls[..|s.calls|] == s.calls
            && var c := s'.calls[|s.calls|];
               && CallsFor(c, s.orders[i], cb)
               && (if c.fault
                   then s'.tables == s.tables && c.status == (if s.orders[i].isHomeUser && cb.fault.AtFirst? then 404 else 500)
                   else (s'.tables, c.status) == Managed(s.tables, c.req, c.asked, c.checked, true))
               && (if cb.enqueueOk && c.status != 409 && c.status != 500 then Queues(s, s', cb) else s'.queue == s.queue)
  {
    FirstOrderIs(s.orders, cb.checkoutId);
    assert FirstOrder(s.orders, cb.checkoutId) == Some(i);
    var call := CallFor(s, i, cb);
    assert (s.calls + [call])[..|s.calls|] == s.calls;
  }

  /**
   A run of a task books the payment under the first order with its checkout id and marks
   that order; a run that fails changes nothing but the queue, and keeps the task while
   retries are left.
   */
  lemma TaskRuns(s: State, k: nat, dbOk: bool, retry: bool)
    requires k < |s.queue|
    ensures var s' := Worked(s, k, dbOk, retry);
            var task := s.queue[k];
            var rest := s.queue[..k] + s.queue[k + 1..];
            && s'.tables == s.tables && s'.calls == s.calls
            && (forall i: nat :: dbOk && IsFirst(s.orders, task.checkoutId, i) ==>
                  && s'.queue == rest
                  && s'.payments == s.payments + [Payment(i, task.checkoutId, s.orders[i].username, task.code)]
                  && s'.orders == s.orders[i := s.orders[i].(status := if task.code == 0 then "paid" else "payment_failed")])
            && (!dbOk || (forall i: nat :: !IsFirst(s.orders, task.checkoutId, i)) ==>
                  SameBooks(s, s') && s'.queue == if retry then s.queue else rest)
  {
    FirstOrderIs(s.orders, s.queue[k].checkoutId);
    var found := FirstOrder(s.orders, s.queue[k].checkoutId);
    if found.Some? {
      assert IsFirst(s.orders, s.queue[k].checkoutId, found.value);
    }
  }

  /** A failed payment ends as a payment row and a failed order. */
  lemma FailedPaymentSettles(s: State, cb: Callback, i: nat)
    requires cb.fetchOk && cb.code != 0 && cb.enqueueOk && IsFirst(s.orders, cb.checkoutId, i)
    ensures var s2 := Worked(Received(s, cb), |s.queue|, true, false);
            && s2.orders == s.orders[i := s.orders[i].(status := "payment_failed")]
            && s2.payments == s.payments + [Payment(i, cb.checkoutId, s.orders[i].username, cb.code)]
            && s2.queue == s.queue && s2.tables == s.tables && s2.calls == s.calls
  {
    FailedPaymentIsQueued(s, cb);
    var s1 := Received(s, cb);
    TaskRuns(s1, |s.queue|, true, false);
    assert s1.queue[..|s.queue|] + s1.queue[|s.queue| + 1..] == s.queue;
  }
}
