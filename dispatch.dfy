/** What the client's message listener does with one incoming message, as a
    function of values: the matching subscriptions are visited in order, each as a
    `View` of its listener and keys; a signed one runs the key loop against the
    shared replay buffer, an encrypted one replaces the message text with its
    decryption (for every later subscription too), a plain one passes the text
    on. The first exception ends the visit. */
module Dispatch {
  import opened Common
  import opened JwsHelper
  import opened Replay
  import opened Validator
  import opened KeyChange
  import opened Subscriptions

  /** What the application observes: a listener call, or an `onFailure` call. */
  datatype Event =
    | Delivered(listener: Listener, topic: string, payload: string, listenerId: string)
    | FailureReported(callback: Callback, error: Error)

  /** The `onFailure` calls one failure causes: the callback's own, then, for a
      forwarding callback, those of the callback it wraps. */
  function Notify(c: Callback, e: Error): (r: seq<Event>)
    ensures |r| >= 1 && r[0] == FailureReported(c, e)
    ensures r[|r| - 1] == FailureReported(FailureTarget(c), e)
    ensures forall k :: 0 <= k < |r| ==> r[k].FailureReported? && r[k].error == e
  {
    match c
    case AppCallback(_) => [FailureReported(c, e)]
    case ForwardFailure(original) => [FailureReported(c, e)] + Notify(original, e)
  }

  /** The `onFailure` calls of `addSubscription`: a key that does not parse,
      then a transport that refuses the subscription, each end in `onFailure`;
      otherwise there are none. */
  function SubscribeOutcome(lib: Library, transportAccepts: bool, callback: Callback, publicKeys: Option<seq<string>>): (r: seq<Event>)
    ensures r == [] <==> KeysParse(lib, publicKeys) && transportAccepts
    ensures !KeysParse(lib, publicKeys) ==> r == Notify(callback, KeyError)
    ensures KeysParse(lib, publicKeys) && !transportAccepts ==> r == Notify(callback, TransportError)
  {
    if !KeysParse(lib, publicKeys) then Notify(callback, KeyError)
    else if !transportAccepts then Notify(callback, TransportError)
    else []
  }

  /** What the modelled code does not decide: the library calls, whether the
      transport accepts a subscription to a topic filter, which application
      listeners throw, and the clock. */
  datatype Env = Env(lib: Library, transportAccepts: string -> bool, throwingListeners: set<nat>, now: int)

  /** One matching subscription as the dispatcher sees it. */
  datatype View = View(id: string, listener: Listener, keys: Option<seq<EcPublicKey>>, decryptKey: Option<string>)

  /** The dispatcher's state: what was observed, the message text (rewritten by
      decryption), the replay buffer, the exception that ended the visit, and the
      signed subscriptions key-change controllers asked the client for, in order. */
  datatype State = State(events: seq<Event>, payload: string, buffer: Buffer, raised: Option<Error>, requests: seq<KeyAction>)

  /** Hands the current text to the subscription's listener. An application
      listener may throw; a key-change controller that has no subscription id yet
      opens a signed subscription to its main topic with the text as key. */
  function Deliver(env: Env, topic: string, st: State, v: View): (r: State)
    ensures r.payload == st.payload && r.buffer == st.buffer
    ensures |r.events| > |st.events| && r.events[..|st.events|] == st.events
    ensures r.events[|st.events|] == Delivered(v.listener, topic, st.payload, v.id)
    ensures r.raised.Some? <==> v.listener.AppListener? && v.listener.id in env.throwingListeners
    ensures v.listener.AppListener? ==> r.requests == st.requests
    ensures v.listener.KeyListener? ==>
              var ctl := v.listener.controller;
              r.requests == st.requests + [SubscribeSigned(ctl.mainTopic, [st.payload], ctl.mainListener, ctl.originalCallback)]
  {
    var events := st.events + [Delivered(v.listener, topic, st.payload, v.id)];
    match v.listener
    case AppListener(n) =>
      st.(events := events, raised := if n in env.throwingListeners then Some(ListenerError) else None)
    case KeyListener(ctl) =>
      var accepted := env.transportAccepts(ctl.mainTopic);
      st.(events := events + SubscribeOutcome(env.lib, accepted, ctl.originalCallback, Some([st.payload])), raised := None,
          requests := st.requests + [SubscribeSigned(ctl.mainTopic, [st.payload], ctl.mainListener, ctl.originalCallback)])
  }

  /** One loop iteration of the dispatcher: it asks for at most one signed
      subscription, and only a key-change controller asks. */
  function Step(env: Env, windowSeconds: int, topic: string, st: State, v: View): (r: State)
    ensures |st.requests| <= |r.requests| <= |st.requests| + 1 && r.requests[..|st.requests|] == st.requests
    ensures |r.requests| > |st.requests| ==> st.raised.None? && v.listener.KeyListener?
  {
    if st.raised.Some? then st
    else match v.keys
      case Some(keys) =>
        var (r, b) := TryKeys(env.lib, st.buffer, windowSeconds, st.payload, keys, env.now);
        (match r
         case Failure(e) => st.(buffer := b, raised := Some(e))
         case Success(ok) => if ok then Deliver(env, topic, st.(buffer := b), v) else st.(buffer := b))
      case None =>
        match v.decryptKey
        case None => Deliver(env, topic, st, v)
        case Some(k) =>
          match env.lib.decrypt(st.payload, k)
          case Failure(e) => st.(raised := Some(e))
          case Success(plain) => Deliver(env, topic, st.(payload := plain), v)
  }

  /** The whole visit. */
  function Run(env: Env, windowSeconds: int, topic: string, st: State, views: seq<View>): State
    decreases |views|
  {
    if views == [] then st
    else Run(env, windowSeconds, topic, Step(env, windowSeconds, topic, st, views[0]), views[1..])
  }

  // ---------------------------------------------------------------------------
  // Properties of the visit

  /** Visiting two lists one after the other is visiting their concatenation. */
  lemma {:induction false} RunAppend(env: Env, windowSeconds: int, topic: string, st: State, a: seq<View>, b: seq<View>)
    ensures Run(env, windowSeconds, topic, st, a + b)
         == Run(env, windowSeconds, topic, Run(env, windowSeconds, topic, st, a), b)
    decreases |a|
  {
    if a != [] {
      assert (a + b)[0] == a[0];
      assert (a + b)[1..] == a[1..] + b;
      RunAppend(env, windowSeconds, topic, Step(env, windowSeconds, topic, st, a[0]), a[1..], b);
    } else {
      assert a + b == b;
    }
  }

  /** After an exception nothing more happens: no listener is called, the buffer
      and the text stay as they are. */
  lemma {:induction false} RaisedStops(env: Env, windowSeconds: int, topic: string, st: State, views: seq<View>)
    requires st.raised.Some?
    ensures Run(env, windowSeconds, topic, st, views) == st
    decreases |views|
  {
    if views != [] {
      RaisedStops(env, windowSeconds, topic, st, views[1..]);
    }
  }

  /** The visit of a list followed by one more subscription is one more step. */
  lemma RunSnoc(env: Env, windowSeconds: int, topic: string, st: State, views: seq<View>, v: View)
    ensures Run(env, windowSeconds, topic, st, views + [v])
         == Step(env, windowSeconds, topic, Run(env, windowSeconds, topic, st, views), v)
  {
    RunAppend(env, windowSeconds, topic, st, views, [v]);
    assert [v][1..] == [];
  }

  /** Once a prefix of the visit has raised, the whole visit ends there. */
  lemma RunStopsAt(env: Env, windowSeconds: int, topic: string, st: State, views: seq<View>, k: nat)
    requires k <= |views|
    requires Run(env, windowSeconds, topic, st, views[..k]).raised.Some?
    ensures Run(env, windowSeconds, topic, st, views) == Run(env, windowSeconds, topic, st, views[..k])
  {
    assert views == views[..k] + views[k..];
    RunAppend(env, windowSeconds, topic, st, views[..k], views[k..]);
    RaisedStops(env, windowSeconds, topic, Run(env, windowSeconds, topic, st, views[..k]), views[k..]);
  }

  /** One more step of a visit: the visit of the first `i + 1` views steps from
      the visit of the first `i`, and ends the whole visit when it raises. */
  lemma RunAdvance(env: Env, windowSeconds: int, topic: string, st: State, views: seq<View>, i: nat)
    requires i < |views|
    ensures Run(env, windowSeconds, topic, st, views[..i + 1])
         == Step(env, windowSeconds, topic, Run(env, windowSeconds, topic, st, views[..i]), views[i])
    ensures Run(env, windowSeconds, topic, st, views[..i + 1]).raised.Some? ==>
              Run(env, windowSeconds, topic, st, views) == Run(env, windowSeconds, topic, st, views[..i + 1])
  {
    assert views[..i + 1] == views[..i] + [views[i]];
    RunSnoc(env, windowSeconds, topic, st, views[..i], views[i]);
    if Run(env, windowSeconds, topic, st, views[..i + 1]).raised.Some? {
      RunStopsAt(env, windowSeconds, topic, st, views, i + 1);
    }
  }

  /** A view that is plain (no keys, no decryption key) and whose application
      listener does not throw. */
  predicate PlainView(env: Env, v: View) {
    v.keys.None? && v.decryptKey.None? && v.listener.AppListener? && v.listener.id !in env.throwingListeners
  }

  /** Plain subscriptions each receive the message text unchanged, in order, and
      the replay buffer is not consulted. */
  lemma {:induction false} PlainSubscribersAllReceive(env: Env, windowSeconds: int, topic: string, st: State, views: seq<View>)
    requires st.raised.None?
    requires forall k :: 0 <= k < |views| ==> PlainView(env, views[k])
    ensures Run(env, windowSeconds, topic, st, views)
         == st.(events := st.events + seq(|views|, k requires 0 <= k < |views| =>
                                             Delivered(views[k].listener, topic, st.payload, views[k].id)))
    decreases |views|
  {
    if views != [] {
      var s1 := Step(env, windowSeconds, topic, st, views[0]);
      assert s1 == st.(events := st.events + [Delivered(views[0].listener, topic, st.payload, views[0].id)]);
      PlainSubscribersAllReceive(env, windowSeconds, topic, s1, views[1..]);
      var rest := seq(|views| - 1, k requires 0 <= k < |views| - 1 =>
                        Delivered(views[1..][k].listener, topic, st.payload, views[1..][k].id));
      var all := seq(|views|, k requires 0 <= k < |views| => Delivered(views[k].listener, topic, st.payload, views[k].id));
      assert all == [Delivered(views[0].listener, topic, st.payload, views[0].id)] + rest;
    }
  }

  /** The decryption of an encrypted subscription replaces the message for the
      subscriptions after it: a plain subscriber that follows receives the
      plaintext, not the text that arrived. */
  lemma DecryptionRewritesLaterPayload(env: Env, windowSeconds: int, topic: string, message: string, b: Buffer,
                                       encrypted: View, plain: View)
    requires encrypted.keys.None? && encrypted.decryptKey.Some?
    requires encrypted.listener.AppListener? && encrypted.listener.id !in env.throwingListeners
    requires env.lib.decrypt(message, encrypted.decryptKey.value).Success?
    requires PlainView(env, plain)
    ensures var plaintext := env.lib.decrypt(message, encrypted.decryptKey.value).value;
            (Run(env, windowSeconds, topic, State([], message, b, None, []), [encrypted, plain]).events
             == [Delivered(encrypted.listener, topic, plaintext, encrypted.id), Delivered(plain.listener, topic, plaintext, plain.id)])
  {
    var st := State([], message, b, None, []);
    var s1 := Step(env, windowSeconds, topic, st, encrypted);
    assert [encrypted, plain][1..] == [plain];
    assert Run(env, windowSeconds, topic, s1, [plain]) == Step(env, windowSeconds, topic, s1, plain);
  }

  /** The ids of the subscriptions that are not in signed mode. */
  function UnsignedIds(views: seq<View>): (ids: set<string>)
    ensures forall k :: 0 <= k < |views| && views[k].keys.None? ==> views[k].id in ids
  {
    set k | 0 <= k < |views| && views[k].keys.None? :: views[k].id
  }

  /** No view decrypts, so the message text stays what arrived. */
  predicate NoDecryption(views: seq<View>) {
    forall k :: 0 <= k < |views| ==> views[k].keys.Some? || views[k].decryptKey.None?
  }

  /** Once the stamp of the message is in the buffer (and inside the window),
      no signed subscription is handed the same text: only unsigned
      subscriptions receive it. */
  lemma {:induction false} SeenStampStarvesSigned(env: Env, windowSeconds: int, topic: string, st: State, views: seq<View>)
    requires NoDecryption(views)
    requires StampOf(env.lib, st.payload).Success?
    requires Seen(st.buffer, StampOf(env.lib, st.payload).value.0, StampOf(env.lib, st.payload).value.1)
    ensures var r := Run(env, windowSeconds, topic, st, views);
            forall k :: |st.events| <= k < |r.events| && r.events[k].Delivered? ==> r.events[k].listenerId in UnsignedIds(views)
    decreases |views|
  {
    if views != [] {
      var v := views[0];
      var s1 := Step(env, windowSeconds, topic, st, v);
      if st.raised.None? && v.keys.Some? {
        TryKeysMeaning(env.lib, st.buffer, windowSeconds, st.payload, v.keys.value, env.now);
      }
      assert s1.payload == st.payload && s1.buffer == st.buffer;
      assert |s1.events| >= |st.events|;
      assert forall k :: |st.events| <= k < |s1.events| && s1.events[k].Delivered? ==> s1.events[k].listenerId == v.id && v.keys.None?;
      assert NoDecryption(views[1..]) by {
        forall k | 0 <= k < |views[1..]| ensures views[1..][k].keys.Some? || views[1..][k].decryptKey.None? {
          assert views[1..][k] == views[k + 1];
        }
      }
      SeenStampStarvesSigned(env, windowSeconds, topic, s1, views[1..]);
      var r := Run(env, windowSeconds, topic, s1, views[1..]);
      assert UnsignedIds(views[1..]) <= UnsignedIds(views) by {
        forall id | id in UnsignedIds(views[1..]) ensures id in UnsignedIds(views) {
          var k :| 0 <= k < |views[1..]| && views[1..][k].keys.None? && views[1..][k].id == id;
          assert views[1..][k] == views[k + 1];
        }
      }
      RunKeepsEvents(env, windowSeconds, topic, s1, views[1..]);
      assert views[0] == v;
      forall k | |st.events| <= k < |r.events| && r.events[k].Delivered?
        ensures r.events[k].listenerId in UnsignedIds(views)
      {
        if k < |s1.events| {
          assert r.events[k] == s1.events[k];
        }
      }
    }
  }

  /** The visit only appends events. */
  lemma {:induction false} RunKeepsEvents(env: Env, windowSeconds: int, topic: string, st: State, views: seq<View>)
    ensures var r := Run(env, windowSeconds, topic, st, views);
            |r.events| >= |st.events| && r.events[..|st.events|] == st.events
    decreases |views|
  {
    if views != [] {
      var s1 := Step(env, windowSeconds, topic, st, views[0]);
      assert |s1.events| >= |st.events| && s1.events[..|st.events|] == st.events;
      RunKeepsEvents(env, windowSeconds, topic, s1, views[1..]);
    }
  }

  /** At most one signed subscription receives a given message: once a signed
      subscription has accepted it, the stamp is recorded, and no later signed
      subscription matching the topic receives the same text, whichever keys it
      holds. */
  lemma OneSignedSubscriberPerMessage(env: Env, windowSeconds: int, topic: string, st: State, v: View, rest: seq<View>)
    requires st.raised.None? && v.keys.Some?
    requires TryKeys(env.lib, st.buffer, windowSeconds, st.payload, v.keys.value, env.now).0 == Success(true)
    requires NoDecryption(rest)
    ensures var s1 := Step(env, windowSeconds, topic, st, v);
            var r := Run(env, windowSeconds, topic, s1, rest);
            && s1.events == st.events + [Delivered(v.listener, topic, st.payload, v.id)] + s1.events[|st.events| + 1..]
            && forall k :: |s1.events| <= k < |r.events| && r.events[k].Delivered? ==> r.events[k].listenerId in UnsignedIds(rest)
  {
    TryKeysMeaning(env.lib, st.buffer, windowSeconds, st.payload, v.keys.value, env.now);
    SeenStampStarvesSigned(env, windowSeconds, topic, Step(env, windowSeconds, topic, st, v), rest);
  }
}
