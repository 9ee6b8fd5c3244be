/**
 * The browser side of a room (client_layer/src/hooks/useWebRTC.ts): how each
 * envelope the relay delivers updates the `messages`, `peers` and `users` lists,
 * the peer-connection table kept beside them, and what a close code makes the
 * hook do. Every envelope the relay delivers is a JSON object, so `msg` is one.
 */
module SignalClient {
  import opened Wrappers
  import opened Json
  import Decimal

  // ----- JavaScript values --------------------------------------------------

  /** A property read: `undefined` for a missing key. */
  datatype JsVal = Undefined | Val(v: Json)

  function Prop(msg: map<string, Json>, key: string): (r: JsVal)
    ensures r.Undefined? <==> key !in msg
  {
    if key in msg then Val(msg[key]) else Undefined
  }

  /** `String(v)` on a parsed JSON value; an array prints its elements joined by commas, null ones empty. */
  function JsonString(v: Json): (s: string)
    ensures v.JInt? ==> Decimal.ParseInt(s) == Some(v.i)
    decreases v, if v.JArr? then |v.items| + 1 else 0
  {
    match v
    case JNull => "null"
    case JBool(b) => if b then "true" else "false"
    case JInt(i) => Decimal.IntToStringRoundTrip(i); Decimal.IntToString(i)
    case JStr(t) => t
    case JArr(items) => JoinFrom(v, 0)
    case JObj(_) => "[object Object]"
  }

  /** `items[i..].join(",")` as `Array.prototype.join` renders it. */
  function JoinFrom(v: Json, i: nat): string
    requires v.JArr? && i <= |v.items|
    decreases v, |v.items| - i
  {
    if i == |v.items| then ""
    else
      var head := if v.items[i].JNull? then "" else JsonString(v.items[i]);
      if i + 1 == |v.items| then head else head + "," + JoinFrom(v, i + 1)
  }

  function JsString(x: JsVal): string {
    match x
    case Undefined => "undefined"
    case Val(v) => JsonString(v)
  }

  /** JavaScript truthiness of a JSON value or `undefined`. */
  function Truthy(x: JsVal): (b: bool)
    ensures b ==> x.Val? && !x.v.JNull?
    ensures x.Val? && (x.v.JArr? || x.v.JObj?) ==> b
  {
    match x
    case Undefined => false
    case Val(JNull) => false
    case Val(JBool(b)) => b
    case Val(JInt(i)) => i != 0
    case Val(JStr(s)) => s != ""
    case Val(_) => true
  }

  /** `msg.type === t`. */
  predicate TypeIs(msg: map<string, Json>, t: string) {
    Prop(msg, "type") == Val(JStr(t))
  }

  // ----- list expressions ---------------------------------------------------

  /** `ids.map(String)`. */
  function Strings(items: seq<Json>): (r: seq<string>)
    ensures |r| == |items|
    ensures forall k :: 0 <= k < |items| ==> r[k] == JsonString(items[k])
  {
    if items == [] then [] else Strings(items[..|items| - 1]) + [JsonString(items[|items| - 1])]
  }

  /** `prev.includes(x) ? prev : [...prev, x]`. */
  function AddOnce(s: seq<string>, x: string): (r: seq<string>)
    ensures x in r
    ensures forall y :: y in r <==> y in s || y == x
    ensures NoDup(s) ==> NoDup(r)
  {
    if x in s then s else s + [x]
  }

  /** `prev.filter(id => id !== x)`. */
  function FilterOut(s: seq<string>, x: string): (r: seq<string>)
    ensures |r| <= |s|
  {
    if s == [] then []
    else FilterOut(s[..|s| - 1], x) + (if s[|s| - 1] != x then [s[|s| - 1]] else [])
  }

  /** The filter drops every occurrence and keeps every other element. */
  lemma {:induction false} FilterOutMembers(s: seq<string>, x: string, y: string)
    ensures y in FilterOut(s, x) <==> y in s && y != x
  {
    if s != [] {
      FilterOutMembers(s[..|s| - 1], x, y);
      assert s == s[..|s| - 1] + [s[|s| - 1]];
    }
  }

  /** The filter keeps the survivors' order, so a list without duplicates stays so. */
  lemma {:induction false} FilterOutNoDup(s: seq<string>, x: string)
    requires NoDup(s)
    ensures NoDup(FilterOut(s, x))
  {
    if s != [] {
      var init := s[..|s| - 1];
      assert NoDup(init);
      FilterOutNoDup(init, x);
      FilterOutMembers(init, x, s[|s| - 1]);
      assert s[|s| - 1] !in init;
    }
  }

  // ----- the message handler ------------------------------------------------

  /** What the handler's branches decide for one envelope; `sender` is `String(msg.user_id)`. */
  datatype Signal =
    | ExistingUsersSignal(ids: JsVal)
    | ChatSignal
    | JoinedSignal(sender: string)
    | OfferSignal(sender: string)
    | AnswerSignal(sender: string)
    | CandidateSignal(sender: string)
    | LeftSignal(sender: string)
    | Ignored

  /**
   * The branch taken: `existing_users` first, then the self-filter (own envelopes
   * other than chat are dropped), then the `switch` with its `target_id` gates.
   */
  function Classify(msg: map<string, Json>, myId: string): (s: Signal)
    ensures s.ExistingUsersSignal? <==> TypeIs(msg, "existing_users")
    ensures s.ChatSignal? <==> TypeIs(msg, "chat")
    ensures !s.ExistingUsersSignal? && !s.ChatSignal? && !s.Ignored? ==>
      s.sender == JsString(Prop(msg, "user_id")) && s.sender != myId
  {
    var senderId := JsString(Prop(msg, "user_id"));
    var target := Prop(msg, "target_id");
    if TypeIs(msg, "existing_users") then ExistingUsersSignal(Prop(msg, "ids"))
    else if senderId == myId && !TypeIs(msg, "chat") then Ignored
    else if TypeIs(msg, "chat") then ChatSignal
    else if TypeIs(msg, "user_joined") then JoinedSignal(senderId)
    else if TypeIs(msg, "offer") then
      (if JsString(target) == myId || !Truthy(target) then OfferSignal(senderId) else Ignored)
    else if TypeIs(msg, "answer") then
      (if JsString(target) == myId then AnswerSignal(senderId) else Ignored)
    else if TypeIs(msg, "candidate") then
      (if JsString(target) == myId then CandidateSignal(senderId) else Ignored)
    else if TypeIs(msg, "user_left") then LeftSignal(senderId)
    else Ignored
  }

  /** The three rendered lists. */
  datatype View = View(messages: seq<map<string, Json>>, peers: seq<string>, users: seq<string>)

  /**
   * The `setMessages`, `setPeers` and `setUsers` updates one envelope causes;
   * `None` when `msg.ids.map` throws because `ids` is not an array.
   */
  function Reduce(view: View, msg: map<string, Json>, myId: string): (r: Option<View>)
    ensures r.None? <==> Classify(msg, myId).ExistingUsersSignal? && !(Prop(msg, "ids").Val? && Prop(msg, "ids").v.JArr?)
    ensures r.Some? ==> (r.value.messages == view.messages <==> !Classify(msg, myId).ChatSignal?)
  {
    match Classify(msg, myId)
    case ExistingUsersSignal(ids) =>
      if ids.Val? && ids.v.JArr? then
        Some(view.(users := Roster(Strings(ids.v.items), myId)))
      else None
    case ChatSignal => Some(view.(messages := view.messages + [msg]))
    case JoinedSignal(sender) => Some(view.(users := AddOnce(view.users, sender), peers := view.peers + [sender]))
    case OfferSignal(sender) => Some(view.(peers := AddOnce(view.peers, sender)))
    case AnswerSignal(_) => Some(view)
    case CandidateSignal(_) => Some(view)
    case LeftSignal(sender) => Some(view.(peers := FilterOut(view.peers, sender), users := FilterOut(view.users, sender)))
    case Ignored => Some(view)
  }

  /** The roster `existing_users` installs: the listed ids, then the user's own id if it is not among them. */
  function Roster(names: seq<string>, myId: string): (r: seq<string>)
    ensures |names| <= |r| && r[..|names|] == names
    ensures forall u :: u in r <==> u in names || u == myId
    ensures NoDup(names) ==> NoDup(r)
  {
    if myId in names then names else names + [myId]
  }

  /** `existing_users` replaces the roster by the listed ids, with the user's own id added if absent. */
  lemma ExistingUsersRoster(view: View, msg: map<string, Json>, myId: string, items: seq<Json>)
    requires TypeIs(msg, "existing_users") && Prop(msg, "ids") == Val(JArr(items))
    ensures Reduce(view, msg, myId).Some?
    ensures Reduce(view, msg, myId).value.messages == view.messages
    ensures Reduce(view, msg, myId).value.peers == view.peers
    ensures Reduce(view, msg, myId).value.users[..|items|] == Strings(items)
    ensures forall u :: u in Reduce(view, msg, myId).value.users <==> u in Strings(items) || u == myId
  {
    assert Reduce(view, msg, myId) == Some(view.(users := Roster(Strings(items), myId))) by {
      assert Classify(msg, myId) == ExistingUsersSignal(Val(JArr(items)));
    }
  }

  /** The user's own envelopes are dropped, all but chat. */
  lemma OwnSignalsIgnored(view: View, msg: map<string, Json>, myId: string)
    requires !TypeIs(msg, "existing_users") && !TypeIs(msg, "chat")
    requires JsString(Prop(msg, "user_id")) == myId
    ensures Reduce(view, msg, myId) == Some(view)
  {
  }

  /** Every chat envelope, the echo of the user's own included, is appended to the transcript and nothing else changes. */
  lemma ChatAppended(view: View, msg: map<string, Json>, myId: string)
    requires TypeIs(msg, "chat")
    ensures Reduce(view, msg, myId) == Some(view.(messages := view.messages + [msg]))
  {
  }

  /** A join adds the sender to a duplicate-free roster once, but always appends it to `peers`. */
  lemma {:induction false} JoinedUpdates(view: View, msg: map<string, Json>, myId: string, sender: string)
    requires Classify(msg, myId) == JoinedSignal(sender)
    requires NoDup(view.users)
    ensures Reduce(view, msg, myId).Some?
    ensures NoDup(Reduce(view, msg, myId).value.users) && sender in Reduce(view, msg, myId).value.users
    ensures Reduce(view, msg, myId).value.peers == view.peers + [sender]
    ensures Reduce(view, msg, myId).value.messages == view.messages
  {
  }

  /** An offer is taken when addressed to the user or to nobody, and adds the sender to `peers` once. */
  lemma OfferGate(view: View, msg: map<string, Json>, myId: string)
    requires TypeIs(msg, "offer") && JsString(Prop(msg, "user_id")) != myId
    requires NoDup(view.peers)
    ensures var target := Prop(msg, "target_id");
      Classify(msg, myId).OfferSignal? <==> JsString(target) == myId || !Truthy(target)
    ensures Reduce(view, msg, myId).Some? && NoDup(Reduce(view, msg, myId).value.peers)
    ensures Classify(msg, myId).OfferSignal? ==> JsString(Prop(msg, "user_id")) in Reduce(view, msg, myId).value.peers
    ensures !Classify(msg, myId).OfferSignal? ==> Reduce(view, msg, myId) == Some(view)
  {
  }

  /** Answers and candidates only touch the peer connection, and only when addressed to the user. */
  lemma AnswerAndCandidateGate(view: View, msg: map<string, Json>, myId: string)
    requires TypeIs(msg, "answer") || TypeIs(msg, "candidate")
    requires JsString(Prop(msg, "user_id")) != myId
    ensures Classify(msg, myId).AnswerSignal? || Classify(msg, myId).CandidateSignal? <==>
      JsString(Prop(msg, "target_id")) == myId
    ensures Reduce(view, msg, myId) == Some(view)
  {
  }

  /** A departure removes every occurrence of the sender from both lists and keeps everyone else. */
  lemma {:induction false} LeftRemovesEverywhere(view: View, msg: map<string, Json>, myId: string, sender: string)
    requires Classify(msg, myId) == LeftSignal(sender)
    ensures Reduce(view, msg, myId).Some?
    ensures forall u :: u in Reduce(view, msg, myId).value.users <==> u in view.users && u != sender
    ensures forall p :: p in Reduce(view, msg, myId).value.peers <==> p in view.peers && p != sender
    ensures Reduce(view, msg, myId).value.messages == view.messages
  {
    forall u
      ensures u in Reduce(view, msg, myId).value.users <==> u in view.users && u != sender
      ensures u in Reduce(view, msg, myId).value.peers <==> u in view.peers && u != sender
    {
      FilterOutMembers(view.users, sender, u);
      FilterOutMembers(view.peers, sender, u);
    }
  }

  // ----- connection closes ----------------------------------------------------

  /** `shouldReconnect`: a kick (4003) or a denied join (1008) is final. */
  predicate ShouldReconnect(code: int) {
    code != 4003 && code != 1008
  }

  /** `onClose` alerts and leaves for the room list on exactly the codes that are not retried. */
  function OnClose(code: int, reason: string): (alert: Option<string>)
    ensures alert.Some? <==> !ShouldReconnect(code)
    ensures alert.Some? && reason != "" ==> alert.value == "Disconnected: " + reason
    ensures alert.Some? && reason == "" ==> alert.value == "Disconnected: You have been blocked/kicked."
  {
    if code == 4003 || code == 1008 then Some("Disconnected: " + (if reason != "" then reason else "You have been blocked/kicked."))
    else None
  }

  // ----- the hook ---------------------------------------------------------------

  /** A request the hook makes of a peer connection; the promise chains behind them are not modelled. */
  datatype PeerAction =
    | Created(target: string)
    | OfferTo(target: string)
    | AnswerTo(target: string)
    | RemoteAnswer(target: string)
    | AddCandidate(target: string)
    | ClosedPeer(target: string)

  /** The peer-connection requests one classified envelope makes, given the table before it. */
  function PeerActions(table: map<string, nat>, s: Signal): seq<PeerAction> {
    match s
    case JoinedSignal(t) => (if t in table then [] else [Created(t)]) + [OfferTo(t)]
    case OfferSignal(t) => (if t in table then [] else [Created(t)]) + [AnswerTo(t)]
    case AnswerSignal(t) => if t in table then [RemoteAnswer(t)] else []
    case CandidateSignal(t) => if t in table then [AddCandidate(t)] else []
    case LeftSignal(t) => if t in table then [ClosedPeer(t)] else []
    case _ => []
  }

  /** One mounted hook: its user id, the lists, the `peerConnections` table (targets to connection handles). */
  class SignalingHook {
    const myId: string
    var messages: seq<map<string, Json>>
    var peers: seq<string>
    var users: seq<string>
    var peerConnections: map<string, nat>
    /** The handle the next `new RTCPeerConnection` receives. */
    var nextPeer: nat
    var actions: seq<PeerAction>

    /** Every connection handle was issued, and no two targets share one. */
    ghost predicate Valid()
      reads this
    {
      && (forall t :: t in peerConnections ==> peerConnections[t] < nextPeer)
      && (forall s, t :: s in peerConnections && t in peerConnections && s != t ==> peerConnections[s] != peerConnections[t])
    }

    function CurrentView(): View
      reads this
    {
      View(messages, peers, users)
    }

    constructor (userId: string)
      ensures Valid()
      ensures myId == userId && messages == [] && peers == [] && users == []
      ensures peerConnections == map[] && nextPeer == 0 && actions == []
    {
      myId := userId;
      messages, peers, users := [], [], [];
      peerConnections, nextPeer, actions := map[], 0, [];
    }

    /** `createPeerConnection`: the existing connection for the target, or a new one recorded in the table. */
    method CreatePeerConnection(target: string) returns (pc: nat)
      requires Valid()
      modifies this
      ensures Valid()
      ensures target in old(peerConnections) ==>
        && pc == old(peerConnections[target])
        && peerConnections == old(peerConnections) && nextPeer == old(nextPeer) && actions == old(actions)
      ensures target !in old(peerConnections) ==>
        && pc == old(nextPeer) && peerConnections == old(peerConnections)[target := pc]
        && nextPeer == old(nextPeer) + 1 && actions == old(actions) + [Created(target)]
      ensures peerConnections[target] == pc
      ensures messages == old(messages) && peers == old(peers) && users == old(users)
    {
      if target in peerConnections {
        return peerConnections[target];
      }
      pc := nextPeer;
      nextPeer := nextPeer + 1;
      peerConnections := peerConnections[target := pc];
      actions := actions + [Created(target)];
    }

    /** The `lastMessage` effect for one delivered envelope; `threw` when `msg.ids.map` throws. */
    method HandleMessage(msg: map<string, Json>) returns (threw: bool)
      requires Valid()
      modifies this
      ensures Valid()
      ensures threw <==> Reduce(old(CurrentView()), msg, myId).None?
      ensures CurrentView() == if threw then old(CurrentView()) else Reduce(old(CurrentView()), msg, myId).value
      ensures actions == old(actions) + PeerActions(old(peerConnections), Classify(msg, myId))
      ensures match Classify(msg, myId)
        case JoinedSignal(t) => peerConnections.Keys == old(peerConnections).Keys + {t}
        case OfferSignal(t) => peerConnections.Keys == old(peerConnections).Keys + {t}
        case LeftSignal(t) => peerConnections == old(peerConnections) - {t}
        case _ => peerConnections == old(peerConnections)
      ensures forall t :: t in old(peerConnections) && t in peerConnections ==> peerConnections[t] == old(peerConnections[t])
    {
      var next := Reduce(CurrentView(), msg, myId);
      if next.None? {
        return true;
      }
      UpdatePeers(Classify(msg, myId));
      messages, peers, users := next.value.messages, next.value.peers, next.value.users;
      return false;
    }

    /** The `peerConnections` side of one classified envelope: create, close and delete entries. */
    method UpdatePeers(signal: Signal)
      requires Valid()
      modifies this
      ensures Valid()
      ensures actions == old(actions) + PeerActions(old(peerConnections), signal)
      ensures match signal
        case JoinedSignal(t) => peerConnections.Keys == old(peerConnections).Keys + {t}
        case OfferSignal(t) => peerConnections.Keys == old(peerConnections).Keys + {t}
        case LeftSignal(t) => peerConnections == old(peerConnections) - {t}
        case _ => peerConnections == old(peerConnections)
      ensures forall t :: t in old(peerConnections) && t in peerConnections ==> peerConnections[t] == old(peerConnections[t])
      ensures messages == old(messages) && peers == old(peers) && users == old(users)
    {
      match signal {
        case JoinedSignal(sender) =>
          var pc := CreatePeerConnection(sender);
          actions := actions + [OfferTo(sender)];
        case OfferSignal(sender) =>
          var pc := CreatePeerConnection(sender);
          actions := actions + [AnswerTo(sender)];
        case AnswerSignal(sender) =>
          if sender in peerConnections {
            actions := actions + [RemoteAnswer(sender)];
          }
        case CandidateSignal(sender) =>
          if sender in peerConnections {
            actions := actions + [AddCandidate(sender)];
          }
        case LeftSignal(sender) =>
          if sender in peerConnections {
            actions := actions + [ClosedPeer(sender)];
            peerConnections := peerConnections - {sender};
          }
        case _ =>
      }
    }
  }
}
