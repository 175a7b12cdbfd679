/** core/event.py: an ordered list of handlers with append (`+=`),
    remove-first (`-=`) and call-all (`()`).  Handlers are opaque values
    compared with `==`; calling them is modelled as the list of deliveries
    the call makes, in order. */
module Events {
  import opened Outcomes
  import opened Transport

  datatype Event<H> = Event(handlers: seq<H>)

  /** `list.remove` of a handler that is not subscribed. */
  datatype EventError = ValueError

  /** One handler invocation: `handler(arg)`, or `handler()` when `arg` is `None`. */
  datatype Delivery<H, A> = Delivery(handler: H, arg: Option<A>)

  /** `Event()`: no handlers yet. */
  function NewEvent<H>(): (e: Event<H>)
    ensures |e.handlers| == 0
  {
    Event([])
  }

  /** `event += handler`: appended at the end, duplicates allowed. */
  function Subscribe<H>(e: Event<H>, handler: H): (r: Event<H>)
    ensures |r.handlers| == |e.handlers| + 1
    ensures r.handlers[..|e.handlers|] == e.handlers
    ensures r.handlers[|e.handlers|] == handler
  {
    Event(e.handlers + [handler])
  }

  /** Index of the first occurrence of `x` in `s`. */
  function FirstIndex<T(==)>(s: seq<T>, x: T): (i: nat)
    requires x in s
    ensures i < |s| && s[i] == x && x !in s[..i]
  {
    if s[0] == x then 0
    else
      var i := FirstIndex(s[1..], x) + 1;
      assert s[..i] == [s[0]] + s[1..][..i - 1];
      i
  }

  /** `list.remove(x)`: the first equal element goes, the rest keep their order. */
  function RemoveFirst<T(==)>(s: seq<T>, x: T): (r: seq<T>)
    requires x in s
    ensures r == s[..FirstIndex(s, x)] + s[FirstIndex(s, x) + 1..]
  {
    if s[0] == x then s[1..]
    else
      var r := [s[0]] + RemoveFirst(s[1..], x);
      assert s == [s[0]] + s[1..];
      r
  }

  /** `event -= handler`: removes the first equal handler, fails when none is subscribed. */
  function Unsubscribe<H(==)>(e: Event<H>, handler: H): (r: Result<Event<H>, EventError>)
    ensures r.Ok? <==> handler in e.handlers
    ensures r.Ok? ==> |r.value.handlers| == |e.handlers| - 1
    ensures r.Ok? ==> multiset(r.value.handlers) + multiset{handler} == multiset(e.handlers)
    ensures r.Ok? ==> r.value.handlers == e.handlers[..FirstIndex(e.handlers, handler)]
                                          + e.handlers[FirstIndex(e.handlers, handler) + 1..]
  {
    if handler in e.handlers then
      var i := FirstIndex(e.handlers, handler);
      var rest := RemoveFirst(e.handlers, handler);
      assert e.handlers == e.handlers[..i] + [handler] + e.handlers[i + 1..];
      Ok(Event(rest))
    else Err(ValueError)
  }

  /** Adding a handler that was not subscribed and removing it again restores the list. */
  lemma SubscribeThenUnsubscribe<H>(e: Event<H>, handler: H)
    requires handler !in e.handlers
    ensures Unsubscribe(Subscribe(e, handler), handler) == Ok(e)
  {
    var s := Subscribe(e, handler).handlers;
    assert s == e.handlers + [handler];
    assert FirstIndex(s, handler) == |e.handlers|;
    assert s[..|e.handlers|] == e.handlers;
    assert s[|e.handlers| + 1..] == [];
    assert Unsubscribe(Subscribe(e, handler), handler).value.handlers == e.handlers;
  }

  /** The argument every handler receives: Python passes `eventargs` only when it is truthy. */
  function HandlerArg<A>(eventargs: Option<A>, truthy: A -> bool): (arg: Option<A>)
    ensures arg.Some? <==> eventargs.Some? && truthy(eventargs.value)
    ensures arg.Some? ==> arg == eventargs
  {
    if eventargs.Some? && truthy(eventargs.value) then eventargs else None
  }

  /** The `for handler in self.eventhandler` loop of `__call__`. */
  function Deliver<H, A>(handlers: seq<H>, arg: Option<A>): (r: seq<Delivery<H, A>>)
    ensures |r| == |handlers|
    ensures forall i :: 0 <= i < |r| ==> r[i] == Delivery(handlers[i], arg)
  {
    if |handlers| == 0 then [] else [Delivery(handlers[0], arg)] + Deliver(handlers[1..], arg)
  }

  /** `event(eventargs)`: every subscribed entry is called once, in
      subscription order; falsy arguments (None, empty list, empty string)
      are not passed on. */
  function Publish<H, A>(e: Event<H>, eventargs: Option<A>, truthy: A -> bool): (r: seq<Delivery<H, A>>)
    ensures |r| == |e.handlers|
    ensures forall i :: 0 <= i < |r| ==> r[i].handler == e.handlers[i]
    ensures forall i :: 0 <= i < |r| ==>
              (r[i].arg.Some? <==> eventargs.Some? && truthy(eventargs.value))
    ensures forall i :: 0 <= i < |r| ==> r[i].arg.Some? ==> r[i].arg == eventargs
  {
    Deliver(e.handlers, HandlerArg(eventargs, truthy))
  }

  /** A handler subscribed last is called last, after everything called before. */
  lemma {:induction false} PublishAfterSubscribe<H, A>(e: Event<H>, handler: H, eventargs: Option<A>, truthy: A -> bool)
    ensures Publish(Subscribe(e, handler), eventargs, truthy)
            == Publish(e, eventargs, truthy) + [Delivery(handler, HandlerArg(eventargs, truthy))]
  {
    var a := Publish(Subscribe(e, handler), eventargs, truthy);
    var b := Publish(e, eventargs, truthy) + [Delivery(handler, HandlerArg(eventargs, truthy))];
    assert |a| == |b|;
    forall i | 0 <= i < |a| ensures a[i] == b[i] {
      assert a[i] == Delivery(Subscribe(e, handler).handlers[i], HandlerArg(eventargs, truthy));
    }
  }

  /** `StatusEventArgs(status_message)`, stamped with the caller's clock reading. */
  datatype StatusEventArgs = StatusEventArgs(status: Option<string>, statusDate: Instant)

  /** `StatusEvent()(message)`: the message, whatever it is, is wrapped in a
      `StatusEventArgs`; an object is always truthy, so every handler gets it. */
  function PublishStatus<H>(e: Event<H>, message: Option<string>, now: Instant)
    : (r: seq<Delivery<H, StatusEventArgs>>)
    ensures |r| == |e.handlers|
    ensures forall i :: 0 <= i < |r| ==>
              r[i].handler == e.handlers[i] && r[i].arg == Some(StatusEventArgs(message, now))
  {
    Publish(e, Some(StatusEventArgs(message, now)), (_: StatusEventArgs) => true)
  }

  /** `ObservationEventArgs`: the batch a load produced, as the viewer's
      handler reads it back through `observations`. */
  datatype ObservationEventArgs = ObservationEventArgs(observations: seq<Observation>)

  /** `ObservationEvent()(batch)`: like `StatusEvent`, the batch is wrapped
      in its argument object, which is always truthy; so every handler is
      called with the wrapped batch, an empty batch included. */
  function PublishObservations<H>(e: Event<H>, batch: seq<Observation>)
    : (r: seq<Delivery<H, ObservationEventArgs>>)
    ensures |r| == |e.handlers|
    ensures forall i :: 0 <= i < |r| ==>
              r[i].handler == e.handlers[i] && r[i].arg == Some(ObservationEventArgs(batch))
  {
    Publish(e, Some(ObservationEventArgs(batch)), (_: ObservationEventArgs) => true)
  }
}
