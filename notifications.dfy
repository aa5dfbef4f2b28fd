/**
 * SuNotificationService: a flat list of notifications in the order they were
 * raised. Times are integer milliseconds supplied by the caller in place of
 * the system clock.
 */
module Notifications {
  import opened Collections
  import opened Components

  /** The display time a service starts with, in milliseconds. */
  const InitialDefaultDuration: int := 4000

  /** One notification on screen, stamped with the time it was raised. */
  datatype NotificationContext = NotificationContext(
    componentIdentifier: string,
    componentType: ComponentType,
    duration: int,
    parameters: Parameters,
    timeStamp: int)

  /** A request to raise a notification; None asks for the service's default duration. */
  datatype NotificationReq = NotificationReq(
    componentIdentifier: string,
    duration: Option<int>,
    parameters: Parameters)

  /** The context Notify builds from the request at time now. */
  function NewNotification(componentType: ComponentType, req: NotificationReq,
                           defaultDuration: int, now: int): (r: NotificationContext)
    ensures r.componentIdentifier == req.componentIdentifier && r.componentType == componentType
    ensures r.parameters == req.parameters && r.timeStamp == now
    ensures req.duration.Some? ==> r.duration == req.duration.value
    ensures req.duration.None? ==> r.duration == defaultDuration
  {
    NotificationContext(
      req.componentIdentifier, componentType,
      match req.duration { case Some(d) => d case None => defaultDuration },
      req.parameters, now)
  }

  /** An entry is past its display time once now lies strictly after TimeStamp + Duration. */
  predicate Expired(c: NotificationContext, now: int): (r: bool)
    ensures r <==> now - c.timeStamp > c.duration
    ensures now == c.timeStamp + c.duration ==> !r
  {
    now > c.timeStamp + c.duration
  }

  /** The rule CloseTimeoutNotifications removes by at time now. */
  function TimedOut(now: int): NotificationContext -> bool {
    (c: NotificationContext) => Expired(c, now)
  }

  /** The list CloseTimeoutNotifications assigns at time now. */
  function Swept(s: seq<NotificationContext>, now: int): (r: seq<NotificationContext>)
    ensures forall c :: c in r ==> c in s && !Expired(c, now)
    ensures forall c :: c in s && !Expired(c, now) ==> c in r
  {
    RemoveAll(s, TimedOut(now))
  }

  /** The rule that picks out the notifications carrying an identifier. */
  function IdentifiedBy(id: string): NotificationContext -> bool {
    (c: NotificationContext) => c.componentIdentifier == id
  }

  /** Expiry is monotonic in time: an entry expired at t1 is expired at every later t2. */
  lemma ExpiredStaysExpired(c: NotificationContext, t1: int, t2: int)
    requires t1 <= t2 && Expired(c, t1)
    ensures Expired(c, t2)
  {
  }

  /**
   * The sweep compares strictly: an entry whose deadline is exactly now
   * survives, and it is removed one millisecond later.
   */
  lemma SweptAtDeadline(s: seq<NotificationContext>, c: NotificationContext)
    requires c in s
    ensures c in Swept(s, c.timeStamp + c.duration)
    ensures c !in Swept(s, c.timeStamp + c.duration + 1)
  {
  }

  /** Sweeping twice at the same time removes nothing more than sweeping once. */
  lemma SweptIdempotent(s: seq<NotificationContext>, now: int)
    ensures Swept(Swept(s, now), now) == Swept(s, now)
  {
    RemoveAllAbsorb(s, TimedOut(now), TimedOut(now));
  }

  /**
   * Sweeps at increasing times: a later sweep removes everything an earlier
   * one would have, so sweeping at t1 and then at t2 is sweeping at t2 alone,
   * and an earlier sweep after a later one changes nothing.
   */
  lemma SweptMonotone(s: seq<NotificationContext>, t1: int, t2: int)
    requires t1 <= t2
    ensures Swept(Swept(s, t1), t2) == Swept(s, t2)
    ensures Swept(Swept(s, t2), t1) == Swept(s, t2)
  {
    forall c ensures TimedOut(t1)(c) ==> TimedOut(t2)(c) {
      if Expired(c, t1) {
        ExpiredStaysExpired(c, t1, t2);
      }
    }
    RemoveAllAbsorb(s, TimedOut(t1), TimedOut(t2));
  }

  /**
   * A notification raised at time now stays through every sweep up to its
   * deadline now + Duration and is removed by every sweep after it.
   */
  lemma NewNotificationLifetime(s: seq<NotificationContext>, componentType: ComponentType,
                                req: NotificationReq, defaultDuration: int, now: int, t: int)
    ensures var c := NewNotification(componentType, req, defaultDuration, now);
      c in Swept(s + [c], t) <==> t <= now + c.duration
  {
    var c := NewNotification(componentType, req, defaultDuration, now);
    assert c in s + [c];
  }

  /**
   * Closing by the identifier of a notification just raised, when no earlier
   * notification carries that identifier, restores the list Notify started from.
   */
  lemma CloseUndoesNotify(s: seq<NotificationContext>, componentType: ComponentType,
                          req: NotificationReq, defaultDuration: int, now: int)
    requires forall c :: c in s ==> c.componentIdentifier != req.componentIdentifier
    ensures RemoveAll(s + [NewNotification(componentType, req, defaultDuration, now)],
                      IdentifiedBy(req.componentIdentifier)) == s
  {
    var c := NewNotification(componentType, req, defaultDuration, now);
    var p := IdentifiedBy(req.componentIdentifier);
    RemoveAllAppend(s, [c], p);
    RemoveAllNoMatch(s, p);
    assert RemoveAll([c], p) == [] by {
      RemoveAllCons(c, [], p);
    }
    assert s + [] == s;
  }

  /**
   * The notification service. The ghost ChangeEvents counts how often
   * OnNotificationContextsChange has been raised.
   */
  class SuNotificationService {
    var DefaultDuration: int
    var NotificationContexts: seq<NotificationContext>
    ghost var ChangeEvents: nat

    constructor ()
      ensures DefaultDuration == InitialDefaultDuration
      ensures NotificationContexts == [] && ChangeEvents == 0
    {
      DefaultDuration := InitialDefaultDuration;
      NotificationContexts := [];
      ChangeEvents := 0;
    }

    /**
     * Closes the notifications doClose accepts, keeping the rest in order, or
     * all of them when no rule is given; the event is raised either way.
     */
    method CloseNotification(doClose: Option<NotificationContext -> bool>)
      modifies this`NotificationContexts, this`ChangeEvents
      ensures doClose.Some? ==> NotificationContexts == RemoveAll(old(NotificationContexts), doClose.value)
      ensures doClose.Some? ==> forall c :: c in NotificationContexts <==>
                c in old(NotificationContexts) && !doClose.value(c)
      ensures doClose.None? ==> NotificationContexts == []
      ensures ChangeEvents == old(ChangeEvents) + 1
    {
      match doClose {
        case Some(rule) =>
          NotificationContexts := RemoveAll(NotificationContexts, rule);
        case None =>
          NotificationContexts := [];
      }
      ChangeEvents := ChangeEvents + 1;
    }

    /**
     * Closes, at time now, every notification whose display time has passed,
     * keeping the rest in order; the event is raised even when none has.
     */
    method CloseTimeoutNotifications(now: int)
      modifies this`NotificationContexts, this`ChangeEvents
      ensures NotificationContexts == Swept(old(NotificationContexts), now)
      ensures forall c :: c in NotificationContexts <==>
                c in old(NotificationContexts) && !Expired(c, now)
      ensures ChangeEvents == old(ChangeEvents) + 1
    {
      NotificationContexts := RemoveAll(NotificationContexts, TimedOut(now));
      ChangeEvents := ChangeEvents + 1;
    }

    /**
     * Raises a notification at time now: one context is appended after the
     * existing ones, carrying the request's identifier and parameters, the
     * time now, and the request's duration or else DefaultDuration.
     */
    method Notify(componentType: ComponentType, req: NotificationReq, now: int)
      modifies this`NotificationContexts, this`ChangeEvents
      ensures |NotificationContexts| == |old(NotificationContexts)| + 1
      ensures NotificationContexts[..|old(NotificationContexts)|] == old(NotificationContexts)
      ensures var c := NotificationContexts[|NotificationContexts| - 1];
        && c.componentIdentifier == req.componentIdentifier
        && c.componentType == componentType
        && c.parameters == req.parameters
        && c.timeStamp == now
        && c.duration == (if req.duration.Some? then req.duration.value else DefaultDuration)
      ensures ChangeEvents == old(ChangeEvents) + 1
    {
      var context := NewNotification(componentType, req, DefaultDuration, now);
      NotificationContexts := NotificationContexts + [context];
      ChangeEvents := ChangeEvents + 1;
    }
  }
}
