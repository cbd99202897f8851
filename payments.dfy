/** `PaymentsService`: the `subscription` table as Stripe's webhook events
    and a user's cancellation change it. Signature checking and the calls
    to Stripe are effects whose outcome is a parameter; the checkout
    session itself is not modelled. */
module Payments {
  import opened Common
  import opened Schema

  datatype Subscription = Subscription(id: string, userId: string, stripeSubscriptionId: Option<string>,
                                       stripeCustomerId: Option<string>, planType: string,
                                       status: SubscriptionStatus, endDate: Option<int>, createdAt: int)

  /** The fields the handlers read from an event's `data.object`: a
      checkout session's metadata, subscription and customer, or a
      subscription's id and status. */
  datatype EventObject = EventObject(id: string, status: string, userId: string, planType: string,
                                     subscription: Option<string>, customer: Option<string>)

  datatype Event = Event(kind: string, data: EventObject)

  /** What `constructEvent` makes of a payload and its signature: the
      event, or the reason it refused it. */
  datatype Verification = Verified(event: Event) | Rejected(reason: string)

  const CheckoutCompleted: string := "checkout.session.completed"
  const SubscriptionUpdated: string := "customer.subscription.updated"
  const SubscriptionDeleted: string := "customer.subscription.deleted"

  /** The Stripe status as stored. */
  function StatusOf(stripeStatus: string): SubscriptionStatus {
    if stripeStatus == "active" then Active
    else if stripeStatus == "canceled" then Cancelled
    else if stripeStatus == "past_due" then PastDue
    else Expired
  }

  /** Each of the three known statuses has its own stored status, and
      every other Stripe status (`trialing`, `unpaid`, ...) is stored as
      expired. */
  lemma StatusOfFacts(stripeStatus: string)
    ensures StatusOf(stripeStatus) == Active <==> stripeStatus == "active"
    ensures StatusOf(stripeStatus) == Cancelled <==> stripeStatus == "canceled"
    ensures StatusOf(stripeStatus) == PastDue <==> stripeStatus == "past_due"
    ensures StatusOf(stripeStatus) == Expired <==> stripeStatus !in {"active", "canceled", "past_due"}
  {
  }

  /** Rows an `updateMany` by Stripe subscription id selects. */
  predicate Linked(s: Subscription, stripeId: string) {
    s.stripeSubscriptionId == Some(stripeId)
  }

  /** `updateMany` by Stripe subscription id, writing `f` of each
      selected row. */
  function UpdateLinked(subscriptions: seq<Subscription>, stripeId: string, f: Subscription -> Subscription)
    : (r: seq<Subscription>)
    ensures |r| == |subscriptions|
  {
    seq(|subscriptions|, i requires 0 <= i < |subscriptions| =>
      if Linked(subscriptions[i], stripeId) then f(subscriptions[i]) else subscriptions[i])
  }

  function WithStatus(status: SubscriptionStatus): Subscription -> Subscription {
    (s: Subscription) => s.(status := status)
  }

  /** The status and the end date a cancellation writes. */
  function Ended(now: int): Subscription -> Subscription {
    (s: Subscription) => s.(status := Cancelled, endDate := Some(now))
  }

  /** The table after an event that verified. */
  function Dispatch(subscriptions: seq<Subscription>, event: Event, newId: string, now: int): seq<Subscription> {
    var o := event.data;
    if event.kind == CheckoutCompleted then
      subscriptions + [Subscription(newId, o.userId, o.subscription, o.customer, o.planType, Active, None, now)]
    else if event.kind == SubscriptionUpdated then
      UpdateLinked(subscriptions, o.id, WithStatus(StatusOf(o.status)))
    else if event.kind == SubscriptionDeleted then
      UpdateLinked(subscriptions, o.id, Ended(now))
    else subscriptions
  }

  /** An update event rewrites the status of every row of that Stripe
      subscription and of no other row, and changes nothing else. */
  lemma UpdatedEventFacts(subscriptions: seq<Subscription>, event: Event, newId: string, now: int)
    requires event.kind == SubscriptionUpdated
    ensures var r := Dispatch(subscriptions, event, newId, now);
      |r| == |subscriptions| &&
      (forall i :: 0 <= i < |r| && Linked(subscriptions[i], event.data.id) ==>
        r[i] == subscriptions[i].(status := StatusOf(event.data.status))) &&
      (forall i :: 0 <= i < |r| && !Linked(subscriptions[i], event.data.id) ==> r[i] == subscriptions[i])
  {
  }

  /** A deletion event cancels every row of that Stripe subscription and
      stamps its end date; afterwards none of them is active, and other
      rows are untouched. */
  lemma DeletedEventFacts(subscriptions: seq<Subscription>, event: Event, newId: string, now: int)
    requires event.kind == SubscriptionDeleted
    ensures var r := Dispatch(subscriptions, event, newId, now);
      |r| == |subscriptions| &&
      (forall i :: 0 <= i < |r| && Linked(subscriptions[i], event.data.id) ==>
        r[i].status == Cancelled && r[i].endDate == Some(now) && r[i].userId == subscriptions[i].userId) &&
      (forall i :: 0 <= i < |r| && !Linked(subscriptions[i], event.data.id) ==> r[i] == subscriptions[i]) &&
      (forall i :: 0 <= i < |r| && r[i].status == Active ==> !Linked(r[i], event.data.id))
  {
  }

  /** A completed checkout adds one active row for the user named in
      the session's metadata; any other event kind changes nothing. */
  lemma OtherEventsFacts(subscriptions: seq<Subscription>, event: Event, newId: string, now: int)
    ensures event.kind == CheckoutCompleted ==>
      var r := Dispatch(subscriptions, event, newId, now);
      |r| == |subscriptions| + 1 && r[..|subscriptions|] == subscriptions &&
      r[|subscriptions|].userId == event.data.userId && r[|subscriptions|].status == Active
    ensures event.kind !in {CheckoutCompleted, SubscriptionUpdated, SubscriptionDeleted} ==>
      Dispatch(subscriptions, event, newId, now) == subscriptions
  {
  }

  predicate ActiveFor(s: Subscription, userId: string) {
    s.userId == userId && s.status == Active
  }

  /** `findFirst` of the user's active rows, newest first: the position of
      an active row of the user with the latest creation time (the first
      such row in table order on a tie). */
  function LatestActive(subscriptions: seq<Subscription>, userId: string): (r: Option<nat>)
    ensures r.Some? ==> r.value < |subscriptions| && ActiveFor(subscriptions[r.value], userId)
    ensures r.Some? ==> forall i :: 0 <= i < |subscriptions| && ActiveFor(subscriptions[i], userId) ==>
      subscriptions[i].createdAt <= subscriptions[r.value].createdAt
    ensures r.None? ==> forall i :: 0 <= i < |subscriptions| ==> !ActiveFor(subscriptions[i], userId)
    decreases |subscriptions|
  {
    if subscriptions == [] then None
    else
      var rest := LatestActive(subscriptions[1..], userId);
      if ActiveFor(subscriptions[0], userId) &&
         (rest.None? || subscriptions[0].createdAt >= subscriptions[rest.value + 1].createdAt) then Some(0)
      else if rest.None? then None
      else Some(rest.value + 1)
  }

  datatype SubscriptionStatusView = SubscriptionStatusView(hasActiveSubscription: bool, subscription: Option<Subscription>)

  /** `getSubscriptionStatus`. */
  function GetSubscriptionStatus(subscriptions: seq<Subscription>, userId: string): SubscriptionStatusView {
    var k := LatestActive(subscriptions, userId);
    if k.None? then SubscriptionStatusView(false, None)
    else SubscriptionStatusView(true, Some(subscriptions[k.value]))
  }

  /** The user has an active subscription exactly when some row of the
      user is active, and the one reported is such a row. */
  lemma HasActiveIff(subscriptions: seq<Subscription>, userId: string)
    ensures GetSubscriptionStatus(subscriptions, userId).hasActiveSubscription <==>
      exists i :: 0 <= i < |subscriptions| && ActiveFor(subscriptions[i], userId)
    ensures GetSubscriptionStatus(subscriptions, userId).hasActiveSubscription <==>
      GetSubscriptionStatus(subscriptions, userId).subscription.Some?
    ensures var v := GetSubscriptionStatus(subscriptions, userId);
      v.subscription.Some? ==> (v.subscription.value in subscriptions && ActiveFor(v.subscription.value, userId))
  {
  }

  /** What `cancelSubscription` will cancel: the latest active row, if it
      has a (non-empty) Stripe subscription id. */
  function Cancellable(subscriptions: seq<Subscription>, userId: string): Option<nat> {
    var k := LatestActive(subscriptions, userId);
    if k.None? then None
    else
      var sid := subscriptions[k.value].stripeSubscriptionId;
      if sid.None? || sid.value == "" then None else k
  }

  /** Cancellation is possible only with an active subscription; it needs
      the latest one to be linked to Stripe, and an older linked one does
      not help. */
  lemma CancellableFacts(subscriptions: seq<Subscription>, userId: string)
    ensures Cancellable(subscriptions, userId).Some? ==>
      GetSubscriptionStatus(subscriptions, userId).hasActiveSubscription
    ensures var k := Cancellable(subscriptions, userId);
      k.Some? ==> (k.value < |subscriptions| && subscriptions[k.value].stripeSubscriptionId.Some? &&
        subscriptions[k.value].stripeSubscriptionId.value != "" && k == LatestActive(subscriptions, userId))
  {
  }

  class PaymentsService {
    /** The `subscription` table. */
    var subscriptions: seq<Subscription>

    constructor()
      ensures subscriptions == []
    {
      subscriptions := [];
    }

    /** `handleWebhook`: a payload that fails verification is refused
        before any handler runs; a verified one is dispatched on its
        kind and acknowledged, whatever the kind. `newId` is the id the
        database gives a row a checkout creates. */
    method HandleWebhook(verification: Verification, newId: string, now: int) returns (r: Result<bool>)
      modifies this
      ensures verification.Rejected? ==>
        r == Err(BadRequest("Webhook Error: " + verification.reason)) && subscriptions == old(subscriptions)
      ensures verification.Verified? ==>
        r == Ok(true) && subscriptions == Dispatch(old(subscriptions), verification.event, newId, now)
    {
      if verification.Rejected? {
        return Err(BadRequest("Webhook Error: " + verification.reason));
      }
      var event := verification.event;
      if event.kind == CheckoutCompleted {
        HandleCheckoutSessionCompleted(event.data, newId, now);
      } else if event.kind == SubscriptionUpdated {
        HandleSubscriptionUpdated(event.data);
      } else if event.kind == SubscriptionDeleted {
        HandleSubscriptionDeleted(event.data, now);
      }
      r := Ok(true);
    }

    method HandleCheckoutSessionCompleted(session: EventObject, newId: string, now: int)
      modifies this
      ensures subscriptions == old(subscriptions) +
        [Subscription(newId, session.userId, session.subscription, session.customer, session.planType, Active, None, now)]
    {
      subscriptions := subscriptions +
        [Subscription(newId, session.userId, session.subscription, session.customer, session.planType, Active, None, now)];
    }

    method HandleSubscriptionUpdated(subscription: EventObject)
      modifies this
      ensures subscriptions == UpdateLinked(old(subscriptions), subscription.id, WithStatus(StatusOf(subscription.status)))
    {
      var status := StatusOf(subscription.status);
      subscriptions := UpdateLinked(subscriptions, subscription.id, WithStatus(status));
    }

    method HandleSubscriptionDeleted(subscription: EventObject, now: int)
      modifies this
      ensures subscriptions == UpdateLinked(old(subscriptions), subscription.id, Ended(now))
    {
      subscriptions := UpdateLinked(subscriptions, subscription.id, Ended(now));
    }

    /** `cancelSubscription`: without a cancellable row nothing changes;
        when Stripe refuses (`stripeError`) nothing changes either;
        otherwise only that row is cancelled. */
    method CancelSubscription(userId: string, stripeError: Option<string>, now: int) returns (r: Result<string>)
      modifies this
      ensures var k := Cancellable(old(subscriptions), userId);
        if k.None? then r == Err(BadRequest("No active subscription found")) && subscriptions == old(subscriptions)
        else if stripeError.Some? then r == Err(PlainError(stripeError.value)) && subscriptions == old(subscriptions)
        else (r == Ok("Subscription cancelled successfully") &&
          subscriptions == old(subscriptions)[k.value := Ended(now)(old(subscriptions)[k.value])])
    {
      var k := Cancellable(subscriptions, userId);
      if k.None? {
        return Err(BadRequest("No active subscription found"));
      }
      if stripeError.Some? {
        return Err(PlainError(stripeError.value));
      }
      subscriptions := subscriptions[k.value := Ended(now)(subscriptions[k.value])];
      r := Ok("Subscription cancelled successfully");
    }
  }

  /** After a cancellation the cancelled row is no longer active, and the
      user's other rows are as they were. */
  lemma CancelFacts(subscriptions: seq<Subscription>, userId: string, now: int)
    requires Cancellable(subscriptions, userId).Some?
    ensures var k := Cancellable(subscriptions, userId).value;
      var r := subscriptions[k := Ended(now)(subscriptions[k])];
      r[k].status == Cancelled && r[k].endDate == Some(now) && r[k].id == subscriptions[k].id &&
      (forall i :: 0 <= i < |r| && i != k ==> r[i] == subscriptions[i])
  {
  }
}
