/**
 * The bus bridge of one relay process (signaling_layer/redis_manager.py): the set of
 * subscribed room channels, the start-once listener flag, the channel naming, and
 * the filter one listener iteration applies.
 */
module EventBus {
  import opened Wrappers
  import opened Json
  import Decimal

  const RoomPrefix: string := "room:"

  /** The control channel the listener subscribes to when it starts. */
  const ControlChannel: string := "global_control"

  /** `f"room:{room_id}"`. */
  function Channel(roomId: int): (c: string)
    ensures |c| > |RoomPrefix| && c[..|RoomPrefix|] == RoomPrefix
  {
    RoomPrefix + Decimal.IntToString(roomId)
  }

  /** A command the process sends on its bus connection. */
  datatype BusCommand =
    | SubscribeCmd(channel: string)
    | UnsubscribeCmd(channel: string)
    | PublishCmd(channel: string, data: Wire)

  /** `publish`: the message, JSON-encoded, on the room's channel. */
  function PublishTo(roomId: int, message: Json): (cmd: BusCommand)
    ensures cmd.PublishCmd? && cmd.channel == Channel(roomId)
    ensures Decode(cmd.data) == Some(message)
  {
    PublishCmd(Channel(roomId), Encoded(message))
  }

  /** What one `get_message` call yields. */
  datatype BusItem =
    | NoItem                                              // returned None (timeout)
    | Item(kind: string, channel: string, data: Wire)     // a subscribe event or a 'message'
    | ReadFailed                                          // raised; the loop logs, sleeps, retries

  /** One listener iteration: the (channel, data) handed to the callback, if any. */
  function ListenerStep(item: BusItem, hasCallback: bool): (r: Option<(string, Wire)>)
    ensures r.Some? <==> item.Item? && item.kind == "message" && hasCallback
    ensures r.Some? ==> r.value == (item.channel, item.data)
  {
    if item.Item? && item.kind == "message" && hasCallback then Some((item.channel, item.data)) else None
  }

  /** What a finite run of the listener hands to the callback, in order. */
  function Forwarded(items: seq<BusItem>, hasCallback: bool): (r: seq<(string, Wire)>)
    ensures |r| <= |items|
    ensures !hasCallback ==> r == []
  {
    if items == [] then []
    else
      var last := ListenerStep(items[|items| - 1], hasCallback);
      Forwarded(items[..|items| - 1], hasCallback) + (if last.Some? then [last.value] else [])
  }

  /** Runs concatenate: nothing earlier in the run, read failures included, stops later items. */
  lemma {:induction false} ForwardedAppend(a: seq<BusItem>, b: seq<BusItem>, hasCallback: bool)
    ensures Forwarded(a + b, hasCallback) == Forwarded(a, hasCallback) + Forwarded(b, hasCallback)
    decreases |b|
  {
    if b == [] {
      assert a + b == a;
    } else {
      var init := b[..|b| - 1];
      ForwardedAppend(a, init, hasCallback);
      assert (a + b)[..|a + b| - 1] == a + init;
      assert (a + b)[|a + b| - 1] == b[|b| - 1];
      var last := ListenerStep(b[|b| - 1], hasCallback);
      var tail := if last.Some? then [last.value] else [];
      assert Forwarded(a + b, hasCallback) == Forwarded(a + init, hasCallback) + tail;
      assert Forwarded(b, hasCallback) == Forwarded(init, hasCallback) + tail;
    }
  }

  /** A read failure in the middle of a run forwards nothing and loses nothing after it. */
  lemma {:induction false} FailureDoesNotStopListener(a: seq<BusItem>, b: seq<BusItem>, hasCallback: bool)
    ensures Forwarded(a + [ReadFailed] + b, hasCallback) == Forwarded(a, hasCallback) + Forwarded(b, hasCallback)
  {
    ForwardedAppend(a + [ReadFailed], b, hasCallback);
    ForwardedAppend(a, [ReadFailed], hasCallback);
    assert Forwarded([ReadFailed], hasCallback) == [] by {
      assert [ReadFailed][..0] == [];
      assert ListenerStep(ReadFailed, hasCallback).None?;
    }
  }

  /** Every forwarded pair is a 'message' item of the run, and nothing is forwarded without a callback. */
  lemma {:induction false} ForwardedOnlyMessages(items: seq<BusItem>, hasCallback: bool, k: nat)
    requires k < |Forwarded(items, hasCallback)|
    ensures hasCallback
    ensures Item("message", Forwarded(items, hasCallback)[k].0, Forwarded(items, hasCallback)[k].1) in items
  {
    var init := items[..|items| - 1];
    var last := ListenerStep(items[|items| - 1], hasCallback);
    assert items == init + [items[|items| - 1]];
    if k < |Forwarded(init, hasCallback)| {
      ForwardedOnlyMessages(init, hasCallback, k);
    } else {
      assert last.Some?;
    }
  }

  class RedisManager {
    var subscribedRooms: set<int>
    var isListening: bool
    var hasCallback: bool
    /** How many listener tasks `connect` has started. */
    var listenersStarted: nat

    ghost predicate Valid()
      reads this
    {
      listenersStarted == if isListening then 1 else 0
    }

    constructor ()
      ensures Valid()
      ensures subscribedRooms == {} && !isListening && !hasCallback
    {
      subscribedRooms, isListening, hasCallback, listenersStarted := {}, false, false, 0;
    }

    /**
     * `connect`: the first call starts the listener, which subscribes to the control
     * channel; every later call does nothing, so at most one listener ever runs.
     */
    method Connect() returns (issued: seq<BusCommand>)
      requires Valid()
      modifies this
      ensures Valid() && isListening && listenersStarted == 1
      ensures issued == if old(isListening) then [] else [SubscribeCmd(ControlChannel)]
      ensures subscribedRooms == old(subscribedRooms) && hasCallback == old(hasCallback)
    {
      issued := [];
      if !isListening {
        isListening := true;
        listenersStarted := listenersStarted + 1;
        issued := [SubscribeCmd(ControlChannel)];
      }
    }

    /** `set_callback`. */
    method SetCallback()
      requires Valid()
      modifies this
      ensures Valid() && hasCallback
      ensures subscribedRooms == old(subscribedRooms) && isListening == old(isListening)
      ensures listenersStarted == old(listenersStarted)
    {
      hasCallback := true;
    }

    /** `subscribe`: a bus subscription is issued only for a room not yet subscribed. */
    method Subscribe(roomId: int) returns (issued: Option<BusCommand>)
      requires Valid()
      modifies this
      ensures Valid()
      ensures issued == if roomId in old(subscribedRooms) then None else Some(SubscribeCmd(Channel(roomId)))
      ensures subscribedRooms == old(subscribedRooms) + {roomId}
      ensures isListening == old(isListening) && hasCallback == old(hasCallback)
      ensures listenersStarted == old(listenersStarted)
    {
      if roomId in subscribedRooms {
        return None;
      }
      issued := Some(SubscribeCmd(Channel(roomId)));
      subscribedRooms := subscribedRooms + {roomId};
    }

    /** `unsubscribe`: a bus unsubscription is issued only for a subscribed room. */
    method Unsubscribe(roomId: int) returns (issued: Option<BusCommand>)
      requires Valid()
      modifies this
      ensures Valid()
      ensures issued == if roomId in old(subscribedRooms) then Some(UnsubscribeCmd(Channel(roomId))) else None
      ensures subscribedRooms == old(subscribedRooms) - {roomId}
      ensures isListening == old(isListening) && hasCallback == old(hasCallback)
      ensures listenersStarted == old(listenersStarted)
    {
      issued := None;
      if roomId in subscribedRooms {
        issued := Some(UnsubscribeCmd(Channel(roomId)));
        subscribedRooms := subscribedRooms - {roomId};
      }
    }

    /** A finite run of `_listener_loop`: each item is read, filtered and forwarded in turn. */
    method ListenerRun(items: seq<BusItem>) returns (forwarded: seq<(string, Wire)>)
      ensures forwarded == Forwarded(items, hasCallback)
    {
      forwarded := [];
      var i := 0;
      while i < |items|
        invariant 0 <= i <= |items|
        invariant forwarded == Forwarded(items[..i], hasCallback)
      {
        assert items[..i + 1][..i] == items[..i];
        var step := ListenerStep(items[i], hasCallback);
        if step.Some? {
          forwarded := forwarded + [step.value];
        }
        i := i + 1;
      }
      assert items[..i] == items;
    }
  }

  /** Subscribing and then unsubscribing a room that was not subscribed restores the set. */
  method SubscribeThenUnsubscribe(bus: RedisManager, roomId: int)
    requires bus.Valid() && roomId !in bus.subscribedRooms
    modifies bus
    ensures bus.Valid() && bus.subscribedRooms == old(bus.subscribedRooms)
  {
    var first := bus.Subscribe(roomId);
    assert first == Some(SubscribeCmd(Channel(roomId)));
    var again := bus.Subscribe(roomId);
    assert again == None;
    var off := bus.Unsubscribe(roomId);
    assert off == Some(UnsubscribeCmd(Channel(roomId)));
  }
}
