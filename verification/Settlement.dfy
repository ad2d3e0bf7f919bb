/**
 M-Pesa payments: checkout creates an order, the callback of a successful payment
 grants the subscription and queues the payment, and a worker writes the payment
 row and the order status in one transaction.
 */
module Settlement {
  import opened Wrappers
  import opened Http
  import opened Clock
  import H = Hotspot
  import opened Table
  import opened Subscriptions
  import opened GrantAnswers

  const PENDING := "PENDING"
  const PAID := "paid"
  const PAYMENT_FAILED := "payment_failed"

  /** Orders are numbered by their position. */
  datatype Order = Order(checkoutId: string, username: string, devices: int, isHomeUser: bool, status: string)
  datatype Payment = Payment(orderId: nat, checkoutId: string, username: string, code: int)
  datatype Task = Task(checkoutId: string, code: int)

  /** calls are the subscription calls the callbacks have made, in order. */
  datatype State = State(orders: seq<Order>, payments: seq<Payment>, queue: seq<Task>, tables: H.Tables, calls: seq<Call>)

  /** The RADIUS database answers throughout, or the first statement fails, or a later one. */
  datatype Fault = NoFault | AtFirst | Later

  /** plan and duration are those of the order's service plan when the callback arrives. */
  datatype Callback = Callback(checkoutId: string, code: int, plan: string, duration: int,
                               asked: int, checked: int, fetchOk: bool, fault: Fault, enqueueOk: bool)

  /** WHERE CheckoutRequestID = ? ORDER BY id LIMIT 1. */
  function FirstOrder(orders: seq<Order>, checkoutId: string): (r: Option<nat>)
    ensures r.Some? ==> r.value < |orders| && orders[r.value].checkoutId == checkoutId
  {
    if orders == [] then None
    else
      var earlier := FirstOrder(orders[..|orders| - 1], checkoutId);
      if earlier.Some? then earlier
      else if orders[|orders| - 1].checkoutId == checkoutId then Some(|orders| - 1)
      else None
  }

  function RequestFor(order: Order, cb: Callback): Request {
    Request(order.username, None, order.isHomeUser, cb.plan, cb.duration, order.devices)
  }

  function Checkout(s: State, checkoutId: string, username: string, devices: int, isHomeUser: bool, storeOk: bool): State {
    if storeOk then s.(orders := s.orders + [Order(checkoutId, username, devices, isHomeUser, PENDING)]) else s
  }

  function Queued(s: State, cb: Callback): State {
    if cb.enqueueOk then s.(queue := s.queue + [Task(cb.checkoutId, cb.code)]) else s
  }

  /** The subscription call a successful payment makes. */
  function CallFor(s: State, i: nat, cb: Callback): Call
    requires i < |s.orders|
  {
    var req := RequestFor(s.orders[i], cb);
    Call(req, cb.asked, cb.checked, !cb.fault.NoFault?,
         if cb.fault.NoFault? then Managed(s.tables, req, cb.asked, cb.checked, true).1
         else if req.isHomeUser && cb.fault.AtFirst? then NOT_FOUND
         else INTERNAL_ERROR)
  }

  function Received(s: State, cb: Callback): State {
    var found := FirstOrder(s.orders, cb.checkoutId);
    if !cb.fetchOk || found.None? then s
    else if cb.code != 0 then Queued(s, cb)
    else
      var call := CallFor(s, found.value, cb);
      var tables := if cb.fault.NoFault? then Managed(s.tables, call.req, cb.asked, cb.checked, true).0 else s.tables;
      var s' := s.(tables := tables, calls := s.calls + [call]);
      if call.status == INTERNAL_ERROR || call.status == CONFLICT then s' else Queued(s', cb)
  }

  /** Payment row and order status, written in one transaction. */
  function Booked(s: State, task: Task, i: nat): State
    requires i < |s.orders|
  {
    var order := s.orders[i];
    s.(payments := s.payments + [Payment(i, task.checkoutId, order.username, task.code)],
       orders := s.orders[i := order.(status := if task.code == 0 then PAID else PAYMENT_FAILED)])
  }

  /**
   The worker runs task k; any failing statement leaves both tables alone. A task that
   failed is run again, until its retries are used up.
   */
  function Worked(s: State, k: nat, dbOk: bool, retry: bool): State {
    if k >= |s.queue| then s
    else
      var task := s.queue[k];
      var rest := s.(queue := s.queue[..k] + s.queue[k + 1..]);
      var found := FirstOrder(s.orders, task.checkoutId);
      if !dbOk || found.None? then if retry then s else rest
      else Booked(rest, task, found.value)
  }

  // ---- Handlers ------------------------------------------------------------

  class Shop {
    var orders: seq<Order>
    var payments: seq<Payment>
    var queue: seq<Task>
    const radius: H.RadiusDb
    ghost var calls: seq<Call>

    ghost function View(): State
      reads this, radius
    {
      State(orders, payments, queue, radius.tables, calls)
    }

    constructor ()
      ensures View() == INITIAL && fresh(radius) && fresh(radius.conn)
    {
      orders, payments, queue, calls := [], [], [], [];
      radius := new H.RadiusDb();
    }

    method LookUp(checkoutId: string) returns (found: Option<nat>)
      ensures found == FirstOrder(orders, checkoutId)
      ensures found.Some? ==> found.value < |orders| && orders[found.value].checkoutId == checkoutId
      ensures forall j :: 0 <= j < (if found.Some? then found.value else |orders|) ==> orders[j].checkoutId != checkoutId
    {
      for i := 0 to |orders|
        invariant FirstOrder(orders[..i], checkoutId) == None
        invariant forall j :: 0 <= j < i ==> orders[j].checkoutId != checkoutId
      {
        assert orders[..i + 1][..i] == orders[..i];
        if orders[i].checkoutId == checkoutId {
          FirstOrderStays(orders[..i + 1], orders[i + 1..], checkoutId);
          assert orders == orders[..i + 1] + orders[i + 1..];
          return Some(i);
        }
      }
      assert orders[..|orders|] == orders;
      found := None;
    }

    /** What the callback does depends on whether, and where, the RADIUS database fails. */
    method MpesaStkHandlerCallback(cb: Callback) returns (ghost fault: Fault)
      modifies this, radius, radius.conn
      ensures View() == Received(old(View()), cb.(fault := fault))
      ensures fault.NoFault? <==> radius.conn.failures == old(radius.conn.failures)
      ensures fault.AtFirst? <==> radius.conn.unanswered > old(radius.conn.unanswered)
    {
      fault := NoFault;
      if !cb.fetchOk { return; }
      var found := LookUp(cb.checkoutId);
      if found.None? { return; }
      var order := orders[found.value];
      if cb.code != 0 {
        if cb.enqueueOk { queue := queue + [Task(cb.checkoutId, cb.code)]; }
        return;
      }
      var req := RequestFor(order, cb);
      var manageStatus := ManageHotspotUser(radius, req, cb.asked, cb.checked, true);
      if radius.conn.failures > old(radius.conn.failures) {
        fault := if radius.conn.unanswered > old(radius.conn.unanswered) then AtFirst else Later;
      }
      calls := calls + [Call(req, cb.asked, cb.checked, !fault.NoFault?, manageStatus)];
      if manageStatus == INTERNAL_ERROR { return; }
      if manageStatus != CONFLICT {
        if cb.enqueueOk { queue := queue + [Task(cb.checkoutId, cb.code)]; }
      }
    }

    /** One run of a task by the worker; ok is what the queue is told. */
    method SaveMpesaPayment(k: nat, readOk: bool, createOk: bool, saveOk: bool, commitOk: bool) returns (ok: bool)
      requires k < |queue|
      modifies this
      ensures var task := old(queue[k]);
              var found := FirstOrder(old(orders), task.checkoutId);
              && (ok <==> readOk && createOk && saveOk && commitOk && found.Some?)
              && View() == if ok then Booked(old(View()), task, found.value) else old(View())
    {
      var task := queue[k];
      if !readOk { return false; }
      var found := LookUp(task.checkoutId);
      if found.None? { return false; }
      var order := orders[found.value];
      var payment := Payment(found.value, task.checkoutId, order.username, task.code);
      if !createOk { return false; }
      if task.code == 0 {
        order := order.(status := PAID);
      } else {
        order := order.(status := PAYMENT_FAILED);
      }
      if !saveOk { return false; }
      if !commitOk { return false; }
      payments := payments + [payment];
      orders := orders[found.value := order];
      ok := true;
    }

    /** The queue drops a task that succeeded, and one that failed unless it has retries left. */
    method RunTask(k: nat, readOk: bool, createOk: bool, saveOk: bool, commitOk: bool, retry: bool)
      requires k < |queue|
      modifies this
      ensures View() == Worked(old(View()), k, readOk && createOk && saveOk && commitOk, retry)
    {
      var ok := SaveMpesaPayment(k, readOk, createOk, saveOk, commitOk);
      if ok || !retry {
        queue := queue[..k] + queue[k + 1..];
      }
    }
  }

  // ---- Runs ----------------------------------------------------------------

  datatype Event =
    | Ordered(checkoutId: string, username: string, devices: int, isHomeUser: bool, storeOk: bool)
    | CalledBack(cb: Callback)
    | TaskRun(k: nat, dbOk: bool, retry: bool)

  const INITIAL := State([], [], [], H.Tables([], [], []), [])

  function Applied(s: State, e: Event): State {
    match e
    case Ordered(checkoutId, username, devices, isHomeUser, storeOk) => Checkout(s, checkoutId, username, devices, isHomeUser, storeOk)
    case CalledBack(cb) => Received(s, cb)
    case TaskRun(k, dbOk, retry) => Worked(s, k, dbOk, retry)
  }

  function RunOf(events: seq<Event>): State {
    if events == [] then INITIAL else Applied(RunOf(events[..|events| - 1]), events[|events| - 1])
  }

  // ---- Orders and payments agree -------------------------------------------

  function Latest(payments: seq<Payment>, i: nat): Option<Payment> {
    if payments == [] then None
    else if payments[|payments| - 1].orderId == i then Some(payments[|payments| - 1])
    else Latest(payments[..|payments| - 1], i)
  }

  function StatusAfter(latest: Option<Payment>): string {
    if latest.None? then PENDING else if latest.value.code == 0 then PAID else PAYMENT_FAILED
  }

  ghost predicate Agree(s: State) {
    && (forall j :: 0 <= j < |s.payments| ==>
          var p := s.payments[j];
          p.orderId < |s.orders| && s.orders[p.orderId].checkoutId == p.checkoutId && s.orders[p.orderId].username == p.username)
    && (forall i :: 0 <= i < |s.orders| ==> s.orders[i].status == StatusAfter(Latest(s.payments, i)))
  }

  lemma {:induction false} LatestBelongs(payments: seq<Payment>, i: nat)
    ensures Latest(payments, i).Some? <==> exists j :: 0 <= j < |payments| && payments[j].orderId == i
    ensures Latest(payments, i).Some? ==> Latest(payments, i).value.orderId == i && Latest(payments, i).value in payments
  {
    if payments != [] {
      var init := payments[..|payments| - 1];
      LatestBelongs(init, i);
      if payments[|payments| - 1].orderId == i {
        assert payments[|payments| - 1] in payments;
      } else if exists j :: 0 <= j < |payments| && payments[j].orderId == i {
        var j :| 0 <= j < |payments| && payments[j].orderId == i;
        assert init[j].orderId == i;
      }
    }
  }

  lemma WorkAgrees(s: State, k: nat, dbOk: bool, retry: bool)
    requires Agree(s)
    ensures Agree(Worked(s, k, dbOk, retry))
  {
    var s' := Worked(s, k, dbOk, retry);
    if s'.payments != s.payments {
      var p := s'.payments[|s.payments|];
      assert s'.payments[..|s.payments|] == s.payments;
      forall i | 0 <= i < |s'.orders| ensures s'.orders[i].status == StatusAfter(Latest(s'.payments, i)) {
        assert Latest(s'.payments, i) == if p.orderId == i then Some(p) else Latest(s.payments, i);
      }
    }
  }

  lemma CheckoutAgrees(s: State, checkoutId: string, username: string, devices: int, isHomeUser: bool, storeOk: bool)
    requires Agree(s)
    ensures Agree(Checkout(s, checkoutId, username, devices, isHomeUser, storeOk))
  {
    LatestBelongs(s.payments, |s.orders|);
  }

  lemma CallbackAgrees(s: State, cb: Callback)
    ensures Received(s, cb).orders == s.orders && Received(s, cb).payments == s.payments
  {
  }

  lemma StepAgrees(s: State, e: Event)
    requires Agree(s)
    ensures Agree(Applied(s, e))
  {
    match e
    case Ordered(checkoutId, username, devices, isHomeUser, storeOk) => CheckoutAgrees(s, checkoutId, username, devices, isHomeUser, storeOk);
    case CalledBack(cb) => CallbackAgrees(s, cb);
    case TaskRun(k, dbOk, retry) => WorkAgrees(s, k, dbOk, retry);
  }

  /**
   In every reachable state, faults included: a payment points to an order with its
   checkout id and user name, an order is pending iff it has no payment, and
   otherwise it is paid iff its latest payment has result code 0.
   */
  lemma {:induction false} OrdersAndPaymentsAgree(events: seq<Event>)
    ensures Agree(RunOf(events))
  {
    if events != [] {
      OrdersAndPaymentsAgree(events[..|events| - 1]);
      StepAgrees(RunOf(events[..|events| - 1]), events[|events| - 1]);
    }
  }

  lemma StatusMeansPayment(events: seq<Event>, i: nat)
    requires i < |RunOf(events).orders|
    ensures var s := RunOf(events);
            && (s.orders[i].status == PENDING <==> forall j :: 0 <= j < |s.payments| ==> s.payments[j].orderId != i)
            && (s.orders[i].status == PAID <==> Latest(s.payments, i).Some? && Latest(s.payments, i).value.code == 0)
  {
    OrdersAndPaymentsAgree(events);
    LatestBelongs(RunOf(events).payments, i);
  }

  // ---- Every settled payment has a grant -----------------------------------

  /** Successful payments recorded for u. */
  function PaidRows(payments: seq<Payment>, u: string): nat {
    if payments == [] then 0
    else PaidRows(payments[..|payments| - 1], u) +
         if payments[|payments| - 1].code == 0 && payments[|payments| - 1].username == u then 1 else 0
  }

  /** The user a task will be booked for. */
  predicate TaskFor(orders: seq<Order>, task: Task, u: string) {
    var found := FirstOrder(orders, task.checkoutId);
    task.code == 0 && found.Some? && orders[found.value].username == u
  }

  function PaidTasks(orders: seq<Order>, queue: seq<Task>, u: string): nat {
    if queue == [] then 0
    else PaidTasks(orders, queue[..|queue| - 1], u) + if TaskFor(orders, queue[|queue| - 1], u) then 1 else 0
  }

  lemma {:induction false} FirstOrderStays(orders: seq<Order>, more: seq<Order>, checkoutId: string)
    requires FirstOrder(orders, checkoutId).Some?
    ensures FirstOrder(orders + more, checkoutId) == FirstOrder(orders, checkoutId)
  {
    if more == [] {
      assert orders + more == orders;
    } else {
      var init := more[..|more| - 1];
      FirstOrderStays(orders, init, checkoutId);
      assert (orders + more)[..|orders + more| - 1] == orders + init;
    }
  }

  /** Changing a status changes no lookup. */
  lemma {:induction false} FirstOrderSame(orders: seq<Order>, orders': seq<Order>, checkoutId: string)
    requires |orders| == |orders'| && forall i :: 0 <= i < |orders| ==> orders[i].checkoutId == orders'[i].checkoutId
    ensures FirstOrder(orders, checkoutId) == FirstOrder(orders', checkoutId)
  {
    if orders != [] {
      FirstOrderSame(orders[..|orders| - 1], orders'[..|orders| - 1], checkoutId);
    }
  }

  ghost predicate TasksFound(s: State) {
    forall k :: 0 <= k < |s.queue| ==> FirstOrder(s.orders, s.queue[k].checkoutId).Some?
  }

  /** Tasks keep their user while orders only grow or change status. */
  ghost predicate SameUsers(orders: seq<Order>, orders': seq<Order>) {
    |orders| <= |orders'| && forall i :: 0 <= i < |orders| ==>
      orders[i].checkoutId == orders'[i].checkoutId && orders[i].username == orders'[i].username
  }

  lemma TaskForStays(orders: seq<Order>, orders': seq<Order>, task: Task, u: string)
    requires SameUsers(orders, orders') && FirstOrder(orders, task.checkoutId).Some?
    ensures FirstOrder(orders', task.checkoutId).Some? && (TaskFor(orders, task, u) <==> TaskFor(orders', task, u))
  {
    var head, more := orders'[..|orders|], orders'[|orders|..];
    FirstOrderSame(orders, head, task.checkoutId);
    FirstOrderStays(head, more, task.checkoutId);
    assert orders' == head + more;
  }

  lemma {:induction false} PaidTasksStay(orders: seq<Order>, orders': seq<Order>, queue: seq<Task>, u: string)
    requires SameUsers(orders, orders')
    requires forall k :: 0 <= k < |queue| ==> FirstOrder(orders, queue[k].checkoutId).Some?
    ensures PaidTasks(orders', queue, u) == PaidTasks(orders, queue, u)
    ensures forall k :: 0 <= k < |queue| ==> FirstOrder(orders', queue[k].checkoutId).Some?
  {
    if queue != [] {
      PaidTasksStay(orders, orders', queue[..|queue| - 1], u);
      TaskForStays(orders, orders', queue[|queue| - 1], u);
    }
  }

  lemma {:induction false} PaidTasksWithout(orders: seq<Order>, queue: seq<Task>, k: nat, u: string)
    requires k < |queue|
    ensures PaidTasks(orders, queue, u) ==
            PaidTasks(orders, queue[..k] + queue[k + 1..], u) + if TaskFor(orders, queue[k], u) then 1 else 0
  {
    var n := |queue| - 1;
    if k == n {
      assert queue[..k] + queue[k + 1..] == queue[..n];
    } else {
      PaidTasksWithout(orders, queue[..n], k, u);
      var rest := queue[..k] + queue[k + 1..];
      assert rest[..|rest| - 1] == queue[..n][..k] + queue[..n][k + 1..];
      assert rest[|rest| - 1] == queue[n];
    }
  }

  /** A call that answered 404: a home user whose password could not be read. */
  predicate IsUnserved(c: Call, u: string) {
    c.status == NOT_FOUND && c.req.username == u
  }

  function Unserved(calls: seq<Call>, u: string): nat {
    if calls == [] then 0
    else Unserved(calls[..|calls| - 1], u) + if IsUnserved(calls[|calls| - 1], u) then 1 else 0
  }

  /** The payments recorded for u and those still queued never exceed the grants to u and the calls that answered 404. */
  ghost predicate Covered(s: State, u: string) {
    PaidRows(s.payments, u) + PaidTasks(s.orders, s.queue, u) <= GrantsTo(s.calls, u) + Unserved(s.calls, u)
  }

  lemma WorkCovered(s: State, k: nat, dbOk: bool, retry: bool, u: string)
    requires TasksFound(s) && Covered(s, u)
    ensures TasksFound(Worked(s, k, dbOk, retry)) && Covered(Worked(s, k, dbOk, retry), u)
  {
    var s' := Worked(s, k, dbOk, retry);
    if k < |s.queue| {
      PaidTasksWithout(s.orders, s.queue, k, u);
      var rest := s.queue[..k] + s.queue[k + 1..];
      forall m | 0 <= m < |rest| ensures FirstOrder(s.orders, rest[m].checkoutId).Some? {
        assert rest[m] == if m < k then s.queue[m] else s.queue[m + 1];
      }
      PaidTasksStay(s.orders, s'.orders, rest, u);
      if s'.payments != s.payments {
        assert s'.payments[..|s.payments|] == s.payments;
      }
    }
  }

  lemma QueuedCovered(s: State, cb: Callback, u: string)
    requires TasksFound(s) && FirstOrder(s.orders, cb.checkoutId).Some?
    requires Covered(s, u)
    requires TaskFor(s.orders, Task(cb.checkoutId, cb.code), u) ==>
               PaidRows(s.payments, u) + PaidTasks(s.orders, s.queue, u) < GrantsTo(s.calls, u) + Unserved(s.calls, u)
    ensures TasksFound(Queued(s, cb)) && Covered(Queued(s, cb), u)
  {
    var s' := Queued(s, cb);
    if cb.enqueueOk {
      assert s'.queue[..|s.queue|] == s.queue;
    }
  }

  lemma ManagedStatus(t: H.Tables, req: Request, asked: int, checked: int)
    ensures Managed(t, req, asked, checked, true).1 in {OK, CONFLICT, INTERNAL_ERROR}
  {
  }

  lemma GrantsSnoc(calls: seq<Call>, c: Call, u: string)
    ensures GrantsTo(calls + [c], u) == GrantsTo(calls, u) + if IsGrant(c, u) then 1 else 0
    ensures Unserved(calls + [c], u) == Unserved(calls, u) + if IsUnserved(c, u) then 1 else 0
  {
    assert (calls + [c])[..|calls|] == calls;
  }

  /** The state after the call of a successful payment and before the payment is queued. */
  lemma CallCovered(s: State, i: nat, cb: Callback, tables: H.Tables, u: string)
    requires TasksFound(s) && Covered(s, u) && FirstOrder(s.orders, cb.checkoutId) == Some(i)
    ensures var call := CallFor(s, i, cb);
            var s' := s.(tables := tables, calls := s.calls + [call]);
            && call.status in {OK, CONFLICT, INTERNAL_ERROR, NOT_FOUND}
            && TasksFound(s') && Covered(s', u)
            && (call.status == OK || call.status == NOT_FOUND ==> TasksFound(Queued(s', cb)) && Covered(Queued(s', cb), u))
  {
    var call := CallFor(s, i, cb);
    var s' := s.(tables := tables, calls := s.calls + [call]);
    ManagedStatus(s.tables, call.req, cb.asked, cb.checked);
    GrantsSnoc(s.calls, call, u);
    assert TasksFound(s');
    if call.status == OK || call.status == NOT_FOUND {
      QueuedCovered(s', cb, u);
    }
  }

  lemma CallbackCovered(s: State, cb: Callback, u: string)
    requires TasksFound(s) && Covered(s, u)
    ensures TasksFound(Received(s, cb)) && Covered(Received(s, cb), u)
  {
    var found := FirstOrder(s.orders, cb.checkoutId);
    if cb.fetchOk && found.Some? {
      if cb.code != 0 {
        QueuedCovered(s, cb, u);
      } else {
        CallCovered(s, found.value, cb, Received(s, cb).tables, u);
      }
    }
  }

  lemma OrderCovered(s: State, checkoutId: string, username: string, devices: int, isHomeUser: bool, storeOk: bool, u: string)
    requires TasksFound(s) && Covered(s, u)
    ensures TasksFound(Checkout(s, checkoutId, username, devices, isHomeUser, storeOk))
    ensures Covered(Checkout(s, checkoutId, username, devices, isHomeUser, storeOk), u)
  {
    PaidTasksStay(s.orders, Checkout(s, checkoutId, username, devices, isHomeUser, storeOk).orders, s.queue, u);
  }

  /**
   Over every run in which a task that has succeeded is not run again: u's successful
   payment rows, with those still queued, never exceed u's grants and u's calls that
   answered 404.
   */
  lemma {:induction false} PaymentsHaveGrants(events: seq<Event>, u: string)
    ensures TasksFound(RunOf(events)) && Covered(RunOf(events), u)
  {
    if events != [] {
      var s, e := RunOf(events[..|events| - 1]), events[|events| - 1];
      PaymentsHaveGrants(events[..|events| - 1], u);
      match e
      case Ordered(checkoutId, username, devices, isHomeUser, storeOk) =>
        OrderCovered(s, checkoutId, username, devices, isHomeUser, storeOk, u);
      case CalledBack(cb) => CallbackCovered(s, cb, u);
      case TaskRun(k, dbOk, retry) => WorkCovered(s, k, dbOk, retry, u);
    }
  }

  /** The callback of a successful payment queues it without a grant. */
  ghost predicate QueuesUngranted(s: State, cb: Callback) {
    var s' := Received(s, cb);
    cb.code == 0 && s'.queue != s.queue && s'.calls != s.calls && s'.calls[|s'.calls| - 1].status != OK
  }

  /** That happens exactly to a home user's order whose password read fails. */
  lemma UngrantedExactly(s: State, cb: Callback)
    ensures QueuesUngranted(s, cb) <==>
            && cb.fetchOk && cb.code == 0 && cb.enqueueOk && cb.fault.AtFirst?
            && var found := FirstOrder(s.orders, cb.checkoutId); found.Some? && s.orders[found.value].isHomeUser
  {
    var found := FirstOrder(s.orders, cb.checkoutId);
    if cb.fetchOk && cb.code == 0 && found.Some? {
      var call := CallFor(s, found.value, cb);
      ManagedStatus(s.tables, call.req, cb.asked, cb.checked);
      assert (s.calls + [call])[|s.calls|] == call;
      assert |s.queue + [Task(cb.checkoutId, cb.code)]| != |s.queue|;
    }
  }

  lemma {:induction false} NoHomeUserNoneUnserved(events: seq<Event>, u: string)
    requires forall i :: 0 <= i < |events| && events[i].Ordered? ==> !events[i].isHomeUser
    ensures forall i :: 0 <= i < |RunOf(events).orders| ==> !RunOf(events).orders[i].isHomeUser
    ensures Unserved(RunOf(events).calls, u) == 0
  {
    if events != [] {
      var s, e := RunOf(events[..|events| - 1]), events[|events| - 1];
      NoHomeUserNoneUnserved(events[..|events| - 1], u);
      if e.CalledBack? {
        CallbackServes(s, e.cb, u);
      } else {
        assert e.Ordered? ==> !events[|events| - 1].isHomeUser;
      }
    }
  }

  lemma CallbackServes(s: State, cb: Callback, u: string)
    requires (forall i :: 0 <= i < |s.orders| ==> !s.orders[i].isHomeUser) && Unserved(s.calls, u) == 0
    ensures Unserved(Received(s, cb).calls, u) == 0
  {
    var found := FirstOrder(s.orders, cb.checkoutId);
    if cb.fetchOk && cb.code == 0 && found.Some? {
      var call := CallFor(s, found.value, cb);
      ManagedStatus(s.tables, call.req, cb.asked, cb.checked);
      GrantsSnoc(s.calls, call, u);
    }
  }

  /** While checkout marks no order as a home user's, which is how it is written, every payment row has a grant. */
  lemma CheckedOutPaymentsHaveGrants(events: seq<Event>, u: string)
    requires forall i :: 0 <= i < |events| && events[i].Ordered? ==> !events[i].isHomeUser
    ensures PaidRows(RunOf(events).payments, u) <= GrantsTo(RunOf(events).calls, u)
  {
    PaymentsHaveGrants(events, u);
    NoHomeUserNoneUnserved(events, u);
  }

  /** A home user pays, the password cannot be read, and the payment is recorded without any grant. */
  lemma HomeUserPaysInVain()
    ensures var cb := Callback("ws_CO_1", 0, "daily", 86400, 0, 0, true, AtFirst, true);
            var s := RunOf([Ordered("ws_CO_1", "ann", 1, true, true), CalledBack(cb), TaskRun(0, true, false)]);
            |s.orders| == 1 && s.orders[0].status == PAID && PaidRows(s.payments, "ann") == 1 && GrantsTo(s.calls, "ann") == 0
  {
    var cb := Callback("ws_CO_1", 0, "daily", 86400, 0, 0, true, AtFirst, true);
    var a, b, c := Ordered("ws_CO_1", "ann", 1, true, true), CalledBack(cb), TaskRun(0, true, false);
    assert [a, b, c][..2] == [a, b] && [a, b][..1] == [a] && [a][..0] == [];
    var order := Order("ws_CO_1", "ann", 1, true, PENDING);
    var s1, s2, s3 := RunOf([a]), RunOf([a, b]), RunOf([a, b, c]);
    assert RunOf([]) == INITIAL && INITIAL.orders + [order] == [order];
    assert s1 == Checkout(INITIAL, "ws_CO_1", "ann", 1, true, true);
    assert s1 == INITIAL.(orders := [order]);
    OnlyOrder(order);
    var call := CallFor(s1, 0, cb);
    assert s2 == s1.(calls := [call], queue := [Task("ws_CO_1", 0)]);
    assert s3.payments == [Payment(0, "ws_CO_1", "ann", 0)];
    assert s3.orders == [order.(status := PAID)];
    GrantsSnoc([], call, "ann");
    assert [] + [call] == [call];
    PaidOnce(Payment(0, "ws_CO_1", "ann", 0));
  }

  lemma OnlyOrder(order: Order)
    ensures FirstOrder([order], order.checkoutId) == Some(0)
  {
    assert [order][..0] == [];
  }

  lemma PaidOnce(p: Payment)
    requires p.code == 0
    ensures PaidRows([p], p.username) == 1
  {
    assert [p][..0] == [];
  }

  // ---- And the grants do not overlap ---------------------------------------

  /** The RADIUS tables after each of the calls. */
  function TablesAfter(calls: seq<Call>): H.Tables {
    if calls == [] then H.Tables([], [], [])
    else
      var before, c := TablesAfter(calls[..|calls| - 1]), calls[|calls| - 1];
      if c.fault then before else Managed(before, c.req, c.asked, c.checked, true).0
  }

  function TraceOf(calls: seq<Call>): seq<H.Tables> {
    seq(|calls| + 1, i requires 0 <= i <= |calls| => TablesAfter(calls[..i]))
  }

  ghost predicate Faithful(calls: seq<Call>) {
    forall i :: 0 <= i < |calls| ==> Outcome(TablesAfter(calls[..i]), calls[i], TablesAfter(calls[..i + 1]))
  }

  lemma FaithfulSnoc(calls: seq<Call>, c: Call)
    requires Faithful(calls)
    requires if c.fault then c.status == INTERNAL_ERROR || (c.req.isHomeUser && c.status == NOT_FOUND)
             else c.status == Managed(TablesAfter(calls), c.req, c.asked, c.checked, true).1
    ensures Faithful(calls + [c])
    ensures TablesAfter(calls + [c]) ==
            if c.fault then TablesAfter(calls) else Managed(TablesAfter(calls), c.req, c.asked, c.checked, true).0
  {
    var all := calls + [c];
    assert all[..|calls|] == calls && all[..|all|] == all;
    forall i | 0 <= i < |all| ensures Outcome(TablesAfter(all[..i]), all[i], TablesAfter(all[..i + 1])) {
      if i < |calls| {
        assert all[..i] == calls[..i] && all[..i + 1] == calls[..i + 1];
        assert Outcome(TablesAfter(calls[..i]), calls[i], TablesAfter(calls[..i + 1]));
      }
    }
  }

  lemma CallbackFaithful(s: State, cb: Callback)
    requires Faithful(s.calls) && s.tables == TablesAfter(s.calls)
    ensures Faithful(Received(s, cb).calls) && Received(s, cb).tables == TablesAfter(Received(s, cb).calls)
  {
    var found := FirstOrder(s.orders, cb.checkoutId);
    if cb.fetchOk && cb.code == 0 && found.Some? {
      FaithfulSnoc(s.calls, CallFor(s, found.value, cb));
    }
  }

  lemma {:induction false} CallsAreFaithful(events: seq<Event>)
    ensures Faithful(RunOf(events).calls) && RunOf(events).tables == TablesAfter(RunOf(events).calls)
  {
    if events != [] {
      var s, e := RunOf(events[..|events| - 1]), events[|events| - 1];
      CallsAreFaithful(events[..|events| - 1]);
      if e.CalledBack? {
        CallbackFaithful(s, e.cb);
      }
    }
  }

  ghost predicate ClockRuns(calls: seq<Call>) {
    && (forall i :: 0 <= i < |calls| ==> calls[i].asked <= calls[i].checked)
    && (forall i, j :: 0 <= i < j < |calls| ==> calls[i].checked <= calls[j].asked)
  }

  /**
   End to end: the successful payments of a user are at most as many as the user's
   grants and the calls that answered 404, and each of these grants begins after all
   earlier ones have expired.
   */
  lemma PaidSubscriptionsNeverOverlap(events: seq<Event>, u: string)
    requires ClockRuns(RunOf(events).calls)
    ensures var s := RunOf(events);
            && PaidRows(s.payments, u) <= GrantsTo(s.calls, u) + Unserved(s.calls, u)
            && forall i, j :: 0 <= i < j < |s.calls| && IsGrant(s.calls[i], u) && IsGrant(s.calls[j], u) ==>
                 s.calls[j].checked > ExpiryOf(s.calls[i]) * SECOND
  {
    PaymentsHaveGrants(events, u);
    CallsAreRun(events);
    var calls := RunOf(events).calls;
    var states := TraceOf(calls);
    forall i, j | 0 <= i < j < |calls| && IsGrant(calls[i], u) && IsGrant(calls[j], u)
      ensures calls[j].checked > ExpiryOf(calls[i]) * SECOND
    {
      SubscriptionsNeverOverlap(states, calls, u, i, j);
    }
  }

  /** The trace of the calls is a run of subscriptions. */
  lemma CallsAreRun(events: seq<Event>)
    requires ClockRuns(RunOf(events).calls)
    ensures var calls := RunOf(events).calls;
            Run(TraceOf(calls), calls) && TraceOf(calls)[|calls|] == RunOf(events).tables
            && TraceOf(calls)[0] == H.Tables([], [], [])
  {
    CallsAreFaithful(events);
    var calls := RunOf(events).calls;
    var states := TraceOf(calls);
    forall i | 0 <= i < |calls| ensures Outcome(states[i], calls[i], states[i + 1]) {
      assert Outcome(TablesAfter(calls[..i]), calls[i], TablesAfter(calls[..i + 1]));
    }
    assert calls[..|calls|] == calls;
  }

  /**
   The way of a payment: when its callback is granted and queued and the worker takes
   it off the queue, the order is paid, exactly one payment row is added, the queue is as
   before, and the account shows what was paid for: the expiry, the order's devices and the
   plan as its only group.
   */
  lemma GrantedPaymentSettles(events: seq<Event>, cb: Callback, i: nat)
    requires ClockRuns(RunOf(events).calls)
    requires cb.fetchOk && cb.code == 0 && cb.fault.NoFault? && cb.enqueueOk
    requires FirstOrder(RunOf(events).orders, cb.checkoutId) == Some(i)
    requires CallFor(RunOf(events), i, cb).status == OK
    ensures var s := RunOf(events);
            var u := s.orders[i].username;
            var s1 := Received(s, cb);
            var s2 := Worked(s1, |s.queue|, true, false);
            && s2.orders == s.orders[i := s.orders[i].(status := PAID)]
            && s2.payments == s.payments + [Payment(i, cb.checkoutId, u, 0)]
            && s2.queue == s.queue
            && Expires(Vals(s2.tables.check, u, "Expiration"), cb.asked, cb.duration)
            && Vals(s2.tables.check, u, "Simultaneous-Use") == [H.Cell(":=", H.Number(s.orders[i].devices))]
            && (forall k :: Vals(s2.tables.groups, u, k) == if k == cb.plan then [1] else [])
  {
    var s := RunOf(events);
    PaidAccount(events, cb, i);
    var s1 := Received(s, cb);
    assert s1.queue == s.queue + [Task(cb.checkoutId, cb.code)];
    assert s1.queue[..|s.queue|] + s1.queue[|s.queue| + 1..] == s.queue;
  }

  lemma PaidAccount(events: seq<Event>, cb: Callback, i: nat)
    requires ClockRuns(RunOf(events).calls) && cb.fault.NoFault? && i < |RunOf(events).orders|
    requires CallFor(RunOf(events), i, cb).status == OK
    ensures var s := RunOf(events);
            var u := s.orders[i].username;
            var t := Managed(s.tables, RequestFor(s.orders[i], cb), cb.asked, cb.checked, true).0;
            && Expires(Vals(t.check, u, "Expiration"), cb.asked, cb.duration)
            && Vals(t.check, u, "Simultaneous-Use") == [H.Cell(":=", H.Number(s.orders[i].devices))]
            && (forall k :: Vals(t.groups, u, k) == if k == cb.plan then [1] else [])
  {
    var s := RunOf(events);
    var u, req := s.orders[i].username, RequestFor(s.orders[i], cb);
    CallsAreRun(events);
    EmptyIsTidy(u);
    TidyOnRuns(TraceOf(s.calls), s.calls, u, |s.calls|);
    GrantLeavesRequest(s.tables, req, cb.asked, cb.checked, true);
    forall k ensures Vals(s.tables.groups, u, k) == [] || HasRow(s.tables, u) {}
  }

  lemma EmptyIsTidy(u: string)
    ensures Tidy(H.Tables([], [], []), u)
  {
  }
}
