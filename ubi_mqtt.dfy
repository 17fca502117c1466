/** `UbiMqtt`: the client. It keeps a registry from topic filter to listener id
    to `Subscription`, hands out listener ids from a counter, and routes every
    incoming message to the subscriptions whose filter matches its topic (plain,
    signed or encrypted). The transport, connection and publishing are not part
    of this model; whether the transport accepts a subscription is a parameter. */
module Ubi {
  import opened Common
  import opened JwsHelper
  import opened Replay
  import opened Validator
  import opened KeyChange
  import opened Subscriptions
  import opened Dispatch

  const DefaultBufferWindowInSeconds: int := 60
  const PublishersPrefix: string := "publishers/"
  const TcpScheme: string := "tcp://"

  predicate HasTcpScheme(address: string) {
    |address| >= |TcpScheme| && address[..|TcpScheme|] == TcpScheme
  }

  /** The broker address the client connects to: "tcp://" is put in front
      unless it is already there. */
  function ServerUri(address: string): (uri: string)
  {
    if HasTcpScheme(address) then address else TcpScheme + address
  }

  /** The topic on which a publisher announces its public key. */
  function PublisherKeyTopic(publisherName: string): (topic: string)
  {
    PublishersPrefix + publisherName + "/publicKey"
  }

  /** The address always carries the scheme, keeps the given address at its
      end, and normalising twice changes nothing. */
  lemma ServerUriNormalises(address: string)
    ensures HasTcpScheme(ServerUri(address))
    ensures |ServerUri(address)| >= |address| && ServerUri(address)[|ServerUri(address)| - |address|..] == address
    ensures ServerUri(ServerUri(address)) == ServerUri(address)
  {
    if !HasTcpScheme(address) {
      assert (TcpScheme + address)[..|TcpScheme|] == TcpScheme;
      assert (TcpScheme + address)[|TcpScheme|..] == address;
    }
  }

  /** Different publishers have different key topics. */
  lemma PublisherKeyTopicInjective(a: string, b: string)
    requires PublisherKeyTopic(a) == PublisherKeyTopic(b)
    ensures a == b
  {
    var ta, tb := PublisherKeyTopic(a), PublisherKeyTopic(b);
    assert |a| == |b|;
    assert a == ta[|PublishersPrefix|..|PublishersPrefix| + |a|];
    assert b == tb[|PublishersPrefix|..|PublishersPrefix| + |b|];
  }

  // ---------------------------------------------------------------------------
  // The registry

  type Registry = map<string, map<string, Subscription>>

  /** An id is the decimal text `listenerCounter + ""` of a counter value
      below `counter`: it reads back as that value. */
  predicate IssuedId(id: string, counter: nat) {
    && (forall i :: 0 <= i < |id| ==> '0' <= id[i] <= '9')
    && DecimalValue(id) < counter
    && NatToString(DecimalValue(id)) == id
  }

  /** The counter's current value has never been used as an id, and once taken
      it counts as issued. */
  lemma FreshListenerId(reg: Registry, counter: nat)
    requires forall p, id :: p in reg && id in reg[p] ==> IssuedId(id, counter)
    ensures forall p :: p in reg ==> NatToString(counter) !in reg[p]
    ensures IssuedId(NatToString(counter), counter + 1)
  {
    NatToStringRoundTrip(counter);
    forall p, id | p in reg && id in reg[p] ensures id != NatToString(counter) {
      assert IssuedId(id, counter);
    }
  }

  /** Every subscription is filed under its own topic filter, under an id the
      counter has handed out, and each id is filed once; every filed
      subscription belongs to the footprint `repr`. */
  predicate RegistryValid(reg: Registry, counter: nat, repr: set<Subscription>) {
    && (forall p, id :: p in reg && id in reg[p] ==> reg[p][id].topic == p)
    && (forall p, id :: p in reg && id in reg[p] ==> IssuedId(id, counter))
    && (forall p, q, id :: p in reg && q in reg && id in reg[p] && id in reg[q] ==> p == q)
    && (forall p, id :: p in reg && id in reg[p] ==> reg[p][id] in repr)
  }

  /** The registry with an inner map for `topic`, new and empty if there was none. */
  function OpenFilter(reg: Registry, topic: string): (r: Registry)
    ensures topic in r
  {
    if topic in reg then reg else reg[topic := map[]]
  }

  /** The registry with `s` filed under the filter `topic` and the id `id`. */
  function FileEntry(reg: Registry, topic: string, id: string, s: Subscription): (r: Registry)
    requires topic in reg
  {
    reg[topic := reg[topic][id := s]]
  }

  /** Opening a filter adds no entry and replaces none. */
  lemma OpenFilterKeepsEntries(reg: Registry, topic: string)
    ensures OpenFilter(reg, topic).Keys == reg.Keys + {topic}
    ensures forall p :: p in reg ==> OpenFilter(reg, topic)[p] == reg[p]
    ensures topic !in reg ==> OpenFilter(reg, topic)[topic] == map[]
  {
  }

  /** Filing under an unused id keeps every earlier entry, adds exactly the new
      one, and touches no other filter. */
  lemma FileEntryKeepsEntries(reg: Registry, topic: string, id: string, s: Subscription)
    requires topic in reg && id !in reg[topic]
    ensures var r := FileEntry(reg, topic, id, s);
            && r.Keys == reg.Keys
            && (forall p, i :: p in reg && i in reg[p] ==> i in r[p] && r[p][i] == reg[p][i])
            && (forall p, i :: p in r && i in r[p] ==> (i in reg[p] && r[p][i] == reg[p][i]) || (p == topic && i == id))
            && id in r[topic] && r[topic][id] == s
  {
  }

  /** Taking the next id keeps the registry valid. */
  lemma CounterStep(reg: Registry, counter: nat, repr: set<Subscription>)
    requires RegistryValid(reg, counter, repr)
    ensures RegistryValid(reg, counter + 1, repr)
  {
    forall p, id | p in reg && id in reg[p] ensures IssuedId(id, counter + 1) {
      assert IssuedId(id, counter);
    }
  }

  /** Opening a filter keeps the registry valid. */
  lemma OpenKeepsValid(reg: Registry, counter: nat, repr: set<Subscription>, topic: string)
    requires RegistryValid(reg, counter, repr)
    ensures RegistryValid(OpenFilter(reg, topic), counter, repr)
  {
  }

  /** Filing a subscription of the footprint under a fresh issued id and its
      own filter keeps the registry valid. */
  lemma InsertKeepsValid(reg: Registry, counter: nat, repr: set<Subscription>, topic: string, id: string, s: Subscription)
    requires RegistryValid(reg, counter, repr) && topic in reg
    requires IssuedId(id, counter) && s.topic == topic && s in repr
    requires forall p :: p in reg ==> id !in reg[p]
    ensures RegistryValid(FileEntry(reg, topic, id, s), counter, repr)
  {
  }

  /** The id the k-th call of a run starting at counter value `counter` files under. */
  function DrawnId(counter: nat, k: nat): string
  {
    NatToString(counter + k)
  }

  /** Calls of one run draw different ids. */
  lemma DrawnIdsDistinct(counter: nat, j: nat, k: nat)
    requires j != k
    ensures DrawnId(counter, j) != DrawnId(counter, k)
  {
    if DrawnId(counter, j) == DrawnId(counter, k) {
      NatToStringInjective(counter + j, counter + k);
    }
  }

  /** The registry after one `addSubscription` call that drew the listener id
      `id`: the filter has its inner map, and the subscription, when it was
      constructed, is filed under the id. */
  function AfterAdd(reg: Registry, id: string, topic: string, made: Option<Subscription>): (r: Registry)
    ensures topic in r
  {
    var withFilter := OpenFilter(reg, topic);
    if made.Some? then FileEntry(withFilter, topic, id, made.value) else withFilter
  }

  /** The registry after a run of such calls, one per request, the k-th drawing
      `counter + k`. */
  function AfterAdds(reg: Registry, counter: nat, requests: seq<KeyAction>, made: seq<Option<Subscription>>): Registry
    requires |requests| == |made|
    decreases |requests|
  {
    if requests == [] then reg
    else
      var n := |requests| - 1;
      AfterAdd(AfterAdds(reg, counter, requests[..n], made[..n]), DrawnId(counter, n), requests[n].topic, made[n])
  }

  /** `s` is the subscription `subscribeSigned` builds for the request: on its
      topic, for its listener, holding its keys parsed, with no decryption key. */
  ghost predicate Answers(lib: Library, request: KeyAction, s: Subscription)
    reads s
  {
    && request.SubscribeSigned?
    && s.topic == request.topic && s.listener == request.listener && s.decryptPrivateKey.None?
    && KeysParse(lib, Some(request.publicKeys)) && s.ecPublicKeys == ParsedKeys(lib, Some(request.publicKeys))
  }

  /** The keys each subscription of `repr` holds. */
  ghost function KeysOf(repr: set<Subscription>): (keys: map<Subscription, Option<seq<EcPublicKey>>>)
    reads repr
    ensures keys.Keys == repr && forall s :: s in repr ==> keys[s] == s.ecPublicKeys
  {
    map s | s in repr :: s.ecPublicKeys
  }

  /** One call keeps every entry whose id differs from the drawn one, files the
      constructed subscription, and files nothing else. */
  lemma AfterAddStep(reg: Registry, drawn: string, topic: string, made: Option<Subscription>)
    ensures var r := AfterAdd(reg, drawn, topic, made);
            && (forall p, id :: p in reg && id in reg[p] && id != drawn ==> p in r && id in r[p] && r[p][id] == reg[p][id])
            && (made.Some? ==> drawn in r[topic] && r[topic][drawn] == made.value)
            && (forall p, id :: p in r && id in r[p] ==>
                  (p in reg && id in reg[p] && r[p][id] == reg[p][id]) || (made.Some? && p == topic && id == drawn))
  {
  }

  /** A run keeps every entry filed before it. */
  lemma {:induction false} AfterAddsKeeps(reg: Registry, counter: nat, requests: seq<KeyAction>, made: seq<Option<Subscription>>)
    requires |requests| == |made|
    requires forall p, id :: p in reg && id in reg[p] ==> IssuedId(id, counter)
    ensures var r := AfterAdds(reg, counter, requests, made);
            forall p, id :: p in reg && id in reg[p] ==> p in r && id in r[p] && r[p][id] == reg[p][id]
    decreases |requests|
  {
    if requests != [] {
      var n := |requests| - 1;
      AfterAddsKeeps(reg, counter, requests[..n], made[..n]);
      AfterAddStep(AfterAdds(reg, counter, requests[..n], made[..n]), DrawnId(counter, n), requests[n].topic, made[n]);
      forall p, id | p in reg && id in reg[p] ensures id != DrawnId(counter, n) {
        assert IssuedId(id, counter);
        if id == DrawnId(counter, n) {
          NatToStringRoundTrip(counter + n);
        }
      }
    }
  }

  /** A run files the k-th constructed subscription under its topic and the id
      drawn by the k-th call. */
  lemma {:induction false} AfterAddsFiles(reg: Registry, counter: nat, requests: seq<KeyAction>, made: seq<Option<Subscription>>)
    requires |requests| == |made|
    ensures var r := AfterAdds(reg, counter, requests, made);
            forall k :: 0 <= k < |requests| && made[k].Some? ==>
              requests[k].topic in r && DrawnId(counter, k) in r[requests[k].topic]
              && r[requests[k].topic][DrawnId(counter, k)] == made[k].value
    decreases |requests|
  {
    if requests != [] {
      var n := |requests| - 1;
      var rs, ms := requests[..n], made[..n];
      AfterAddsFiles(reg, counter, rs, ms);
      AfterAddStep(AfterAdds(reg, counter, rs, ms), DrawnId(counter, n), requests[n].topic, made[n]);
      forall k | 0 <= k < n && made[k].Some? ensures DrawnId(counter, k) != DrawnId(counter, n) && rs[k] == requests[k] && ms[k] == made[k] {
        DrawnIdsDistinct(counter, k, n);
      }
    }
  }

  /** An entry after a run was filed before it, or is the k-th constructed
      subscription under the id the k-th call drew. */
  ghost predicate FiledByRun(reg: Registry, counter: nat, requests: seq<KeyAction>, made: seq<Option<Subscription>>,
                             p: string, id: string, s: Subscription)
    requires |requests| == |made|
  {
    (p in reg && id in reg[p] && reg[p][id] == s)
    || exists k :: 0 <= k < |requests| && made[k] == Some(s) && p == requests[k].topic && id == DrawnId(counter, k)
  }

  /** A run files nothing but the constructed subscriptions. */
  lemma {:induction false} AfterAddsOnly(reg: Registry, counter: nat, requests: seq<KeyAction>, made: seq<Option<Subscription>>,
                                         p: string, id: string)
    requires |requests| == |made|
    requires var r := AfterAdds(reg, counter, requests, made); p in r && id in r[p]
    ensures FiledByRun(reg, counter, requests, made, p, id, AfterAdds(reg, counter, requests, made)[p][id])
    decreases |requests|
  {
    if requests != [] {
      var n := |requests| - 1;
      var rs, ms := requests[..n], made[..n];
      var prev := AfterAdds(reg, counter, rs, ms);
      var r := AfterAdds(reg, counter, requests, made);
      AfterAddStep(prev, DrawnId(counter, n), requests[n].topic, made[n]);
      if !(made[n].Some? && p == requests[n].topic && id == DrawnId(counter, n)) {
        assert p in prev && id in prev[p] && r[p][id] == prev[p][id];
        AfterAddsOnly(reg, counter, rs, ms, p, id);
        if !(p in reg && id in reg[p] && reg[p][id] == r[p][id]) {
          var k :| 0 <= k < |rs| && ms[k] == Some(r[p][id]) && p == rs[k].topic && id == DrawnId(counter, k);
          assert rs[k] == requests[k] && ms[k] == made[k];
        }
      } else {
        assert made[n] == Some(r[p][id]);
      }
    }
  }

  /** A run with one more call is the shorter run followed by that call. */
  lemma AfterAddsSnoc(reg: Registry, counter: nat, requests: seq<KeyAction>, made: seq<Option<Subscription>>,
                      request: KeyAction, m: Option<Subscription>)
    requires |requests| == |made|
    ensures AfterAdds(reg, counter, requests + [request], made + [m])
         == AfterAdd(AfterAdds(reg, counter, requests, made), DrawnId(counter, |requests|), request.topic, m)
  {
    assert (requests + [request])[..|requests|] == requests && (made + [m])[..|requests|] == made;
  }

  /** Two runs in a row, the second starting where the counter of the first
      stopped, are one run over both request lists. */
  lemma {:induction false} AfterAddsAppend(reg: Registry, counter: nat, requests: seq<KeyAction>, made: seq<Option<Subscription>>,
                                           more: seq<KeyAction>, moreMade: seq<Option<Subscription>>)
    requires |requests| == |made| && |more| == |moreMade|
    ensures AfterAdds(AfterAdds(reg, counter, requests, made), counter + |requests|, more, moreMade)
         == AfterAdds(reg, counter, requests + more, made + moreMade)
    decreases |more|
  {
    if more != [] {
      var n := |more| - 1;
      var rs, ms := requests + more[..n], made + moreMade[..n];
      assert more == more[..n] + [more[n]] && moreMade == moreMade[..n] + [moreMade[n]];
      assert requests + more == rs + [more[n]] && made + moreMade == ms + [moreMade[n]];
      var first := AfterAdds(reg, counter, requests, made);
      calc {
        AfterAdds(first, counter + |requests|, more, moreMade);
      == { AfterAddsSnoc(first, counter + |requests|, more[..n], moreMade[..n], more[n], moreMade[n]); }
        AfterAdd(AfterAdds(first, counter + |requests|, more[..n], moreMade[..n]), DrawnId(counter + |requests|, n),
                 more[n].topic, moreMade[n]);
      == { AfterAddsAppend(reg, counter, requests, made, more[..n], moreMade[..n]);
           assert DrawnId(counter + |requests|, n) == DrawnId(counter, |rs|); }
        AfterAdd(AfterAdds(reg, counter, rs, ms), DrawnId(counter, |rs|), more[n].topic, moreMade[n]);
      == { AfterAddsSnoc(reg, counter, rs, ms, more[n], moreMade[n]); }
        AfterAdds(reg, counter, requests + more, made + moreMade);
      }
    } else {
      assert requests + more == requests && made + moreMade == made;
    }
  }

  /** The k-th call made a subscription exactly when the k-th request's keys
      parse. */
  predicate MadeFlags(lib: Library, requests: seq<KeyAction>, made: seq<Option<Subscription>>)
    requires |made| == |requests|
  {
    forall k :: 0 <= k < |made| ==> (made[k].Some? <==> requests[k].SubscribeSigned? && KeysParse(lib, Some(requests[k].publicKeys)))
  }

  lemma MadeFlagsAppend(lib: Library, requests: seq<KeyAction>, made: seq<Option<Subscription>>, a: KeyAction, m: Option<Subscription>)
    requires |made| == |requests| && MadeFlags(lib, requests, made)
    requires m.Some? <==> a.SubscribeSigned? && KeysParse(lib, Some(a.publicKeys))
    ensures MadeFlags(lib, requests + [a], made + [m])
  {
    var all, allMade := requests + [a], made + [m];
    forall k | 0 <= k < |allMade|
      ensures allMade[k].Some? <==> all[k].SubscribeSigned? && KeysParse(lib, Some(all[k].publicKeys))
    {
      if k < |made| {
        assert allMade[k] == made[k] && all[k] == requests[k];
      }
    }
  }

  /** Every subscription made is in `repr`, is none of the old ones in `keys0`,
      and answers its request. */
  ghost predicate MadeAnswer(lib: Library, repr: set<Subscription>, keys0: map<Subscription, Option<seq<EcPublicKey>>>,
                             requests: seq<KeyAction>, made: seq<Option<Subscription>>)
    requires |made| == |requests|
    reads repr
  {
    forall k :: 0 <= k < |made| && made[k].Some? ==>
      made[k].value in repr && made[k].value !in keys0 && Answers(lib, requests[k], made[k].value)
  }

  lemma MadeAnswerAppend(lib: Library, repr: set<Subscription>, keys0: map<Subscription, Option<seq<EcPublicKey>>>,
                         requests: seq<KeyAction>, made: seq<Option<Subscription>>, a: KeyAction, m: Option<Subscription>)
    requires |made| == |requests| && MadeAnswer(lib, repr, keys0, requests, made)
    requires m.Some? ==> m.value in repr && m.value !in keys0 && Answers(lib, a, m.value)
    ensures MadeAnswer(lib, repr, keys0, requests + [a], made + [m])
  {
    var all, allMade := requests + [a], made + [m];
    forall k | 0 <= k < |allMade| && allMade[k].Some?
      ensures allMade[k].value in repr && allMade[k].value !in keys0 && Answers(lib, all[k], allMade[k].value)
    {
      if k < |made| {
        assert allMade[k] == made[k] && all[k] == requests[k];
      }
    }
  }

  /** N key announcements served in a row leave N signed subscriptions to the
      main topic under N distinct ids, each holding its announced key as its
      only key; every subscription filed before, those holding older keys
      included, is still filed. */
  lemma AnnouncementsAccumulate(lib: Library, reg: Registry, counter: nat, requests: seq<KeyAction>,
                                made: seq<Option<Subscription>>, mainTopic: string)
    requires |requests| == |made|
    requires forall p, id :: p in reg && id in reg[p] ==> IssuedId(id, counter)
    requires forall k :: 0 <= k < |requests| ==>
               && requests[k].SubscribeSigned? && requests[k].topic == mainTopic && |requests[k].publicKeys| == 1
               && lib.parsePublicKey(requests[k].publicKeys[0]).Some?
               && made[k].Some? && Answers(lib, requests[k], made[k].value)
    ensures var r := AfterAdds(reg, counter, requests, made);
            && (forall k :: 0 <= k < |requests| ==>
                  && mainTopic in r && DrawnId(counter, k) in r[mainTopic]
                  && r[mainTopic][DrawnId(counter, k)].ecPublicKeys == Some([lib.parsePublicKey(requests[k].publicKeys[0]).value]))
            && (forall j, k :: 0 <= j < k < |requests| ==> DrawnId(counter, j) != DrawnId(counter, k))
            && (forall p, id :: p in reg && id in reg[p] ==> p in r && id in r[p] && r[p][id] == reg[p][id])
  {
    AfterAddsKeeps(reg, counter, requests, made);
    AfterAddsFiles(reg, counter, requests, made);
    forall j, k | 0 <= j < k < |requests| ensures DrawnId(counter, j) != DrawnId(counter, k) {
      DrawnIdsDistinct(counter, j, k);
    }
    forall k | 0 <= k < |requests|
      ensures made[k].value.ecPublicKeys == Some([lib.parsePublicKey(requests[k].publicKeys[0]).value])
    {
      var keys := ParsedKeys(lib, Some(requests[k].publicKeys)).value;
      assert |keys| == 1 && lib.parsePublicKey(requests[k].publicKeys[0]) == Some(keys[0]);
      assert keys == [keys[0]];
    }
  }

  /** One registry entry: topic filter, listener id, subscription. */
  datatype Entry = Entry(pattern: string, id: string, sub: Subscription)

  predicate Matches(reg: Registry, lib: Library, topic: string, e: Entry) {
    e.pattern in reg && e.id in reg[e.pattern] && reg[e.pattern][e.id] == e.sub && lib.topicMatches(e.pattern, topic)
  }

  /** `r` lists every entry whose filter matches the topic, each exactly once. */
  predicate Enumerates(r: seq<Entry>, reg: Registry, lib: Library, topic: string) {
    && (forall k :: 0 <= k < |r| ==> Matches(reg, lib, topic, r[k]))
    && (forall p, id :: p in reg && id in reg[p] && lib.topicMatches(p, topic) ==> Entry(p, id, reg[p][id]) in r)
    && (forall i, j :: 0 <= i < j < |r| ==> r[i] != r[j])
  }

  /** The entry as the dispatcher reads it. */
  ghost function ViewOf(e: Entry): View
    reads e.sub
  {
    View(e.id, e.sub.listener, e.sub.ecPublicKeys, e.sub.decryptPrivateKey)
  }

  ghost function ViewsOf(entries: seq<Entry>): (views: seq<View>)
    reads set k | 0 <= k < |entries| :: entries[k].sub
    ensures |views| == |entries|
    ensures forall k :: 0 <= k < |entries| ==> views[k] == ViewOf(entries[k])
    decreases |entries|
  {
    if entries == [] then [] else [ViewOf(entries[0])] + ViewsOf(entries[1..])
  }

  /** The entry's listener is not a key-change controller that already knows a
      subscription id (one that would replace keys instead of subscribing). */
  ghost predicate KeyUpdateFree(e: Entry)
    reads if e.sub.listener.KeyListener? then {e.sub.listener.controller} else {}
  {
    e.sub.listener.KeyListener? ==> e.sub.listener.controller.mainListenerId.None?
  }

  ghost predicate AllKeyUpdateFree(entries: seq<Entry>)
    reads set k | 0 <= k < |entries| && entries[k].sub.listener.KeyListener? :: entries[k].sub.listener.controller
  {
    forall k :: 0 <= k < |entries| ==> KeyUpdateFree(entries[k])
  }

  class UbiMqtt {
    const serverAddress: string
    const messageValidator: MessageValidator
    var listenerCounter: nat
    var subscriptions: Registry
    var publicKeyChangeListeners: seq<PublicKeyChangeListener>
    /** Every subscription the client has created. */
    ghost var Repr: set<Subscription>

    /** The window of the replay detector shared by all signed subscriptions. */
    function Window(): int {
      messageValidator.replayDetector.bufferWindowInSeconds
    }

    /** Every subscription is filed under its own topic filter, under an id the
        counter has handed out, and each id is filed once. */
    ghost predicate Valid()
      reads this
    {
      RegistryValid(subscriptions, listenerCounter, Repr)
    }

    /** The footprint only gains subscriptions, and only new ones. */
    twostate predicate Grew()
      reads this
    {
      old(Repr) <= Repr && fresh(Repr - old(Repr))
    }

    /** What one `addSubscription` call did: the counter moved on by one whatever
        happened; the filter has an inner map even when construction failed; a
        subscription whose keys parse is filed under the fresh id; the failures
        went to the callback. */
    twostate predicate Registered(callback: Callback, topic: string, publicKeys: Option<seq<string>>, decryptKey: Option<string>,
                                  new listener: Listener, lib: Library, accepted: bool, new events: seq<Event>)
      reads this, Repr
    {
      var id := NatToString(old(listenerCounter));
      var withFilter := OpenFilter(old(subscriptions), topic);
      && listenerCounter == old(listenerCounter) + 1
      && (forall p :: p in old(subscriptions) ==> id !in old(subscriptions)[p])
      && events == SubscribeOutcome(lib, accepted, callback, publicKeys)
      && (!KeysParse(lib, publicKeys) ==> subscriptions == withFilter && Repr == old(Repr))
      && (KeysParse(lib, publicKeys) ==>
            && topic in subscriptions && id in subscriptions[topic]
            && var s := subscriptions[topic][id];
               && subscriptions == FileEntry(withFilter, topic, id, s) && Repr == old(Repr) + {s}
               && fresh(s) && s.topic == topic && s.listener == listener
               && s.ecPublicKeys == ParsedKeys(lib, publicKeys) && s.decryptPrivateKey == decryptKey)
    }

    /** What serving the request a key-change controller made, if any, did: with
        no request nothing was filed and the counter stayed; with one, the counter
        moved on by one, the registry is `AfterAdd` of the old one under the id
        drawn, and the subscription made, exactly when the keys parse, is new and
        answers the request. */
    twostate predicate ServedOne(lib: Library, new requests: seq<KeyAction>, new made: Option<Subscription>)
      reads this, Repr
    {
      && |requests| <= 1
      && (requests == [] ==> made.None? && subscriptions == old(subscriptions) && listenerCounter == old(listenerCounter))
      && (requests != [] ==>
            && listenerCounter == old(listenerCounter) + 1
            && subscriptions == AfterAdd(old(subscriptions), NatToString(old(listenerCounter)), requests[0].topic, made)
            && (made.Some? <==> requests[0].SubscribeSigned? && KeysParse(lib, Some(requests[0].publicKeys)))
            && (made.Some? ==> made.value in Repr && made.value !in old(Repr) && Answers(lib, requests[0], made.value)))
    }

    /** What serving `requests` in order did, starting from registry `reg0`,
        counter `counter0` and the keys `keys0` of the subscriptions that existed:
        the counter moved on by one per request, the registry is `reg0` with one
        `addSubscription` filing per request, the old subscriptions keep their
        keys, and the k-th request made a new subscription answering it exactly
        when its keys parse. */
    ghost predicate Served(lib: Library, reg0: Registry, counter0: nat, keys0: map<Subscription, Option<seq<EcPublicKey>>>,
                           requests: seq<KeyAction>, made: seq<Option<Subscription>>)
      reads this, Repr
    {
      && |made| == |requests|
      && listenerCounter == counter0 + |requests|
      && subscriptions == AfterAdds(reg0, counter0, requests, made)
      && (forall s :: s in keys0 ==> s in Repr && s.ecPublicKeys == keys0[s])
      && MadeFlags(lib, requests, made)
      && MadeAnswer(lib, Repr, keys0, requests, made)
    }

    /** Serving request `a` from registry `prevSubs`, counter `prevCounter` and
        footprint `prevRepr`, after `requests` were served, extends what was served. */
    lemma ServedAppend(lib: Library, reg0: Registry, counter0: nat, keys0: map<Subscription, Option<seq<EcPublicKey>>>,
                       requests: seq<KeyAction>, made: seq<Option<Subscription>>, a: KeyAction, m: Option<Subscription>,
                       prevSubs: Registry, prevCounter: nat, prevRepr: set<Subscription>)
      requires |made| == |requests| && prevCounter == counter0 + |requests|
      requires prevSubs == AfterAdds(reg0, counter0, requests, made)
      requires MadeFlags(lib, requests, made) && MadeAnswer(lib, Repr, keys0, requests, made)
      requires keys0.Keys <= prevRepr
      requires forall s :: s in keys0 ==> s in Repr && s.ecPublicKeys == keys0[s]
      requires listenerCounter == prevCounter + 1
      requires subscriptions == AfterAdd(prevSubs, NatToString(prevCounter), a.topic, m)
      requires m.Some? <==> a.SubscribeSigned? && KeysParse(lib, Some(a.publicKeys))
      requires m.Some? ==> m.value in Repr && m.value !in prevRepr && Answers(lib, a, m.value)
      ensures Served(lib, reg0, counter0, keys0, requests + [a], made + [m])
    {
      AfterAddsSnoc(reg0, counter0, requests, made, a, m);
      assert DrawnId(counter0, |requests|) == NatToString(prevCounter);
      MadeFlagsAppend(lib, requests, made, a, m);
      MadeAnswerAppend(lib, Repr, keys0, requests, made, a, m);
    }

    /** Once N key announcements for a main topic have been served, each
        carrying one key that parses, the registry holds N signed subscriptions
        to the main topic under N distinct ids, each holding its announced key as
        its only key, next to every subscription filed before. */
    lemma AnnouncementsServed(lib: Library, reg0: Registry, counter0: nat, keys0: map<Subscription, Option<seq<EcPublicKey>>>,
                              requests: seq<KeyAction>, made: seq<Option<Subscription>>, mainTopic: string)
      requires Served(lib, reg0, counter0, keys0, requests, made)
      requires forall p, id :: p in reg0 && id in reg0[p] ==> IssuedId(id, counter0)
      requires forall k :: 0 <= k < |requests| ==>
                 && requests[k].SubscribeSigned? && requests[k].topic == mainTopic && |requests[k].publicKeys| == 1
                 && lib.parsePublicKey(requests[k].publicKeys[0]).Some?
      ensures forall k :: 0 <= k < |requests| ==>
                && mainTopic in subscriptions && DrawnId(counter0, k) in subscriptions[mainTopic]
                && subscriptions[mainTopic][DrawnId(counter0, k)].ecPublicKeys
                   == Some([lib.parsePublicKey(requests[k].publicKeys[0]).value])
      ensures forall j, k :: 0 <= j < k < |requests| ==> DrawnId(counter0, j) != DrawnId(counter0, k)
      ensures forall p, id :: p in reg0 && id in reg0[p] ==> p in subscriptions && id in subscriptions[p] && subscriptions[p][id] == reg0[p][id]
    {
      forall k | 0 <= k < |requests| ensures made[k].Some? {
        assert KeysParse(lib, Some(requests[k].publicKeys));
      }
      AnnouncementsAccumulate(lib, reg0, counter0, requests, made, mainTopic);
    }

    /** `UbiMqtt(serverAddress, bufferWindowInSeconds)`. */
    constructor (serverAddress: string, bufferWindowInSeconds: int)
      requires IsInt32(bufferWindowInSeconds)
      ensures Valid()
      ensures subscriptions == map[] && listenerCounter == 0 && publicKeyChangeListeners == [] && Repr == {}
      ensures this.serverAddress == ServerUri(serverAddress)
      ensures fresh(messageValidator) && fresh(messageValidator.replayDetector)
      ensures messageValidator.replayDetector.buffer == map[] && Window() == bufferWindowInSeconds
    {
      this.serverAddress := ServerUri(serverAddress);
      messageValidator := new MessageValidator(bufferWindowInSeconds);
      listenerCounter := 0;
      subscriptions := map[];
      publicKeyChangeListeners := [];
      Repr := {};
    }

    /** `UbiMqtt(serverAddress)`: the default window of 60 seconds. */
    constructor WithDefaultWindow(serverAddress: string)
      ensures Valid()
      ensures subscriptions == map[] && listenerCounter == 0 && publicKeyChangeListeners == [] && Repr == {}
      ensures this.serverAddress == ServerUri(serverAddress)
      ensures fresh(messageValidator) && fresh(messageValidator.replayDetector)
      ensures messageValidator.replayDetector.buffer == map[] && Window() == DefaultBufferWindowInSeconds
    {
      this.serverAddress := ServerUri(serverAddress);
      messageValidator := new MessageValidator(DefaultBufferWindowInSeconds);
      listenerCounter := 0;
      subscriptions := map[];
      publicKeyChangeListeners := [];
      Repr := {};
    }

    /** `addSubscription` and `addSubscriptionEncrypted`. `accepted` says whether
        the transport's `subscribe` returns normally; a failure of either step is
        caught and reported to `callback`. */
    method AddSubscription(lib: Library, accepted: bool, callback: Callback, topic: string, publicKeys: Option<seq<string>>,
                           decryptKey: Option<string>, listener: Listener) returns (events: seq<Event>)
      requires Valid()
      modifies this
      ensures Valid() && Grew()
      ensures publicKeyChangeListeners == old(publicKeyChangeListeners)
      ensures Registered(callback, topic, publicKeys, decryptKey, listener, lib, accepted, events)
    {
      OpenTopic(topic);
      var id := TakeListenerId();
      var created := Register(lib, topic, id, listener, publicKeys, decryptKey);
      if created.Failure? {
        events := Notify(callback, created.error);
      } else if !accepted {
        events := Notify(callback, TransportError);
      } else {
        events := [];
      }
    }

    /** `new Subscription(...)` followed by filing it under `id`; a key that
        does not parse throws before anything is filed. */
    method Register(lib: Library, topic: string, id: string, listener: Listener, publicKeys: Option<seq<string>>,
                    decryptKey: Option<string>) returns (created: Result<Subscription>)
      requires Valid() && topic in subscriptions && IssuedId(id, listenerCounter)
      requires forall p :: p in subscriptions ==> id !in subscriptions[p]
      modifies this
      ensures Valid() && Grew()
      ensures listenerCounter == old(listenerCounter) && publicKeyChangeListeners == old(publicKeyChangeListeners)
      ensures created.Success? <==> KeysParse(lib, publicKeys)
      ensures created.Failure? ==> created.error == KeyError && subscriptions == old(subscriptions) && Repr == old(Repr)
      ensures created.Success? ==>
                var s := created.value;
                && subscriptions == FileEntry(old(subscriptions), topic, id, s) && Repr == old(Repr) + {s}
                && fresh(s) && s.topic == topic && s.listener == listener
                && s.ecPublicKeys == ParsedKeys(lib, publicKeys) && s.decryptPrivateKey == decryptKey
    {
      created := NewSubscription(lib, topic, listener, publicKeys, decryptKey);
      if created.Success? {
        File(topic, id, created.value);
      }
    }

    /** Creates the inner map of a filter that has none. */
    method OpenTopic(topic: string)
      requires Valid()
      modifies this
      ensures Valid()
      ensures subscriptions == OpenFilter(old(subscriptions), topic)
      ensures forall p :: p in old(subscriptions) ==> NatToString(listenerCounter) !in old(subscriptions)[p]
      ensures listenerCounter == old(listenerCounter) && Repr == old(Repr) && publicKeyChangeListeners == old(publicKeyChangeListeners)
    {
      FreshListenerId(subscriptions, listenerCounter);
      OpenKeepsValid(subscriptions, listenerCounter, Repr, topic);
      if topic !in subscriptions {
        subscriptions := subscriptions[topic := map[]];
      }
    }

    /** `listenerCounter++`: the id handed out is the counter's old value in
        decimal, and no subscription is filed under it yet. */
    method TakeListenerId() returns (id: string)
      requires Valid()
      modifies this
      ensures Valid()
      ensures id == NatToString(old(listenerCounter)) && listenerCounter == old(listenerCounter) + 1
      ensures IssuedId(id, listenerCounter)
      ensures forall p :: p in subscriptions ==> id !in subscriptions[p]
      ensures subscriptions == old(subscriptions) && publicKeyChangeListeners == old(publicKeyChangeListeners)
      ensures Repr == old(Repr)
    {
      id := NatToString(listenerCounter);
      FreshListenerId(subscriptions, listenerCounter);
      CounterStep(subscriptions, listenerCounter, Repr);
      listenerCounter := listenerCounter + 1;
    }

    /** Files a subscription under its filter and a fresh issued id. */
    method File(topic: string, id: string, s: Subscription)
      requires Valid() && topic in subscriptions
      requires IssuedId(id, listenerCounter) && s.topic == topic
      requires forall p :: p in subscriptions ==> id !in subscriptions[p]
      modifies this
      ensures Valid() && Repr == old(Repr) + {s}
      ensures subscriptions == FileEntry(old(subscriptions), topic, id, s)
      ensures listenerCounter == old(listenerCounter) && publicKeyChangeListeners == old(publicKeyChangeListeners)
    {
      Repr := Repr + {s};
      InsertKeepsValid(subscriptions, listenerCounter, Repr, topic, id, s);
      subscriptions := subscriptions[topic := subscriptions[topic][id := s]];
    }

    /** `subscribe`: a plain subscription. */
    method Subscribe(lib: Library, accepted: bool, topic: string, listener: Listener, callback: Callback) returns (events: seq<Event>)
      requires Valid()
      modifies this
      ensures Valid() && Grew()
      ensures publicKeyChangeListeners == old(publicKeyChangeListeners)
      ensures Registered(callback, topic, None, None, listener, lib, accepted, events)
    {
      events := AddSubscription(lib, accepted, callback, topic, None, None, listener);
    }

    /** `subscribeSigned`: messages are delivered only when signed by one of the keys. */
    method SubscribeSigned(lib: Library, accepted: bool, topic: string, publicKeys: Option<seq<string>>, listener: Listener,
                           callback: Callback) returns (events: seq<Event>)
      requires Valid()
      modifies this
      ensures Valid() && Grew()
      ensures publicKeyChangeListeners == old(publicKeyChangeListeners)
      ensures Registered(callback, topic, publicKeys, None, listener, lib, accepted, events)
    {
      events := AddSubscription(lib, accepted, callback, topic, publicKeys, None, listener);
    }

    /** `subscribeEncrypted`: messages are decrypted with the private key before delivery. */
    method SubscribeEncrypted(lib: Library, accepted: bool, topic: string, listener: Listener, decryptPrivateKey: Option<string>,
                              callback: Callback) returns (events: seq<Event>)
      requires Valid()
      modifies this
      ensures Valid() && Grew()
      ensures publicKeyChangeListeners == old(publicKeyChangeListeners)
      ensures Registered(callback, topic, None, decryptPrivateKey, listener, lib, accepted, events)
    {
      events := AddSubscription(lib, accepted, callback, topic, None, decryptPrivateKey, listener);
    }

    /** `subscribeFromPublisher`: a key-change controller for the topic is kept,
        and a plain subscription to the publisher's key topic hands it every key
        announcement; failures of that subscription reach the caller's callback. */
    method SubscribeFromPublisher(lib: Library, accepted: bool, topic: string, publisherName: string, listener: Listener,
                                  callback: Callback) returns (events: seq<Event>)
      requires Valid()
      modifies this
      ensures Valid() && Grew()
      ensures |publicKeyChangeListeners| == |old(publicKeyChangeListeners)| + 1
      ensures publicKeyChangeListeners[..|old(publicKeyChangeListeners)|] == old(publicKeyChangeListeners)
      ensures var ctl := publicKeyChangeListeners[|old(publicKeyChangeListeners)|];
              && fresh(ctl) && ctl.mainTopic == topic && ctl.mainListener == listener
              && ctl.originalCallback == callback && ctl.mainListenerId.None?
              && Registered(ForwardFailure(callback), PublisherKeyTopic(publisherName), None, None, KeyListener(ctl), lib, accepted, events)
      ensures forall k :: 0 <= k < |events| ==> events[k].FailureReported?
      ensures events != [] ==> events[|events| - 1].callback == FailureTarget(callback)
    {
      var ctl := new PublicKeyChangeListener(topic, listener, callback);
      publicKeyChangeListeners := publicKeyChangeListeners + [ctl];
      events := Subscribe(lib, accepted, PublisherKeyTopic(publisherName), KeyListener(ctl), ForwardFailure(callback));
    }

    /** `updatePublicKey`: an existing subscription gets the new key as its only
        key; a key that does not parse throws and leaves it as it was; an unknown
        filter or id is ignored. */
    method UpdatePublicKey(lib: Library, topic: string, listenerId: string, publicKey: string) returns (raised: Option<Error>)
      modifies if topic in subscriptions && listenerId in subscriptions[topic] then {subscriptions[topic][listenerId]} else {}
      ensures topic !in subscriptions || listenerId !in subscriptions[topic] ==> raised == None
      ensures topic in subscriptions && listenerId in subscriptions[topic] ==>
                var s := subscriptions[topic][listenerId];
                match lib.parsePublicKey(publicKey)
                case None => raised == Some(KeyError) && s.ecPublicKeys == old(s.ecPublicKeys)
                case Some(key) => raised == None && s.ecPublicKeys == Some([key])
    {
      if topic in subscriptions && listenerId in subscriptions[topic] {
        var key := lib.parsePublicKey(publicKey);
        if key.None? {
          return Some(KeyError);
        }
        subscriptions[topic][listenerId].SetEcPublicKeys(Some([key.value]));
      }
      return None;
    }

    /** `getSubscriptionsForTopic`: walks the filters, and for each one that
        matches the topic collects all of its entries. */
    method GetSubscriptionsForTopic(lib: Library, topic: string) returns (r: seq<Entry>)
      ensures Enumerates(r, subscriptions, lib, topic)
    {
      r := [];
      var patterns := subscriptions.Keys;
      while patterns != {}
        invariant patterns <= subscriptions.Keys
        invariant forall k :: 0 <= k < |r| ==> Matches(subscriptions, lib, topic, r[k]) && r[k].pattern !in patterns
        invariant forall p, id :: p in subscriptions && p !in patterns && id in subscriptions[p] && lib.topicMatches(p, topic) ==>
                    Entry(p, id, subscriptions[p][id]) in r
        invariant forall i, j :: 0 <= i < j < |r| ==> r[i] != r[j]
        decreases |patterns|
      {
        var p :| p in patterns;
        if lib.topicMatches(p, topic) {
          var added := EntriesOf(p, subscriptions[p]);
          r := r + added;
        }
        patterns := patterns - {p};
      }
    }

    /** The inner loop of `getSubscriptionsForTopic`: the entries of one
        filter's map, each once. */
    static method EntriesOf(p: string, inner: map<string, Subscription>) returns (added: seq<Entry>)
      ensures forall k :: 0 <= k < |added| ==> added[k].pattern == p && added[k].id in inner && added[k].sub == inner[added[k].id]
      ensures forall id :: id in inner ==> Entry(p, id, inner[id]) in added
      ensures forall i, j :: 0 <= i < j < |added| ==> added[i] != added[j]
    {
      added := [];
      var ids := inner.Keys;
      while ids != {}
        invariant ids <= inner.Keys
        invariant forall k :: 0 <= k < |added| ==>
                    added[k].pattern == p && added[k].id in inner && added[k].id !in ids && added[k].sub == inner[added[k].id]
        invariant forall id :: id in inner && id !in ids ==> Entry(p, id, inner[id]) in added
        invariant forall i, j :: 0 <= i < j < |added| ==> added[i] != added[j]
        decreases |ids|
      {
        var id :| id in ids;
        added := added + [Entry(p, id, inner[id])];
        ids := ids - {id};
      }
    }

    /** The key loop of the message listener: keys are tried in order until one
        validates the message or validation throws. */
    method TrySignedKeys(lib: Library, keys: seq<EcPublicKey>, message: string, now: int) returns (r: Result<bool>)
      modifies messageValidator.replayDetector
      ensures (r, messageValidator.replayDetector.buffer)
           == TryKeys(lib, old(messageValidator.replayDetector.buffer), Window(), message, keys, now)
    {
      ghost var b0 := messageValidator.replayDetector.buffer;
      var i := 0;
      while i < |keys|
        invariant 0 <= i <= |keys|
        invariant messageValidator.replayDetector.buffer == b0
        invariant TryKeys(lib, b0, Window(), message, keys, now) == TryKeys(lib, b0, Window(), message, keys[i..], now)
      {
        assert keys[i..][0] == keys[i] && keys[i..][1..] == keys[i + 1..];
        r := messageValidator.ValidateMessage(lib, message, keys[i], now);
        if r != Success(false) {
          return;
        }
        i := i + 1;
      }
      return Success(false);
    }

    /** Carries out the call a key-change controller makes. */
    method Perform(env: Env, action: KeyAction) returns (events: seq<Event>, raised: Option<Error>, ghost made: Option<Subscription>)
      requires Valid()
      modifies this, Repr
      ensures Valid() && Grew()
      ensures publicKeyChangeListeners == old(publicKeyChangeListeners)
      ensures action.SubscribeSigned? ==> ServedOne(env.lib, [action], made)
      ensures action.UpdateKey? ==> made.None?
      ensures action.SubscribeSigned? ==>
                && raised == None
                && Registered(action.callback, action.topic, Some(action.publicKeys), None, action.listener,
                              env.lib, env.transportAccepts(action.topic), events)
                && forall s :: s in old(Repr) ==> s.ecPublicKeys == old(s.ecPublicKeys)
      ensures action.UpdateKey? ==>
                && events == [] && (raised.Some? ==> raised == Some(KeyError))
                && subscriptions == old(subscriptions) && listenerCounter == old(listenerCounter) && Repr == old(Repr)
                && publicKeyChangeListeners == old(publicKeyChangeListeners)
      ensures action.UpdateKey? && (action.topic !in subscriptions || action.listenerId !in subscriptions[action.topic]) ==>
                && raised == None
                && forall s :: s in old(Repr) ==> s.ecPublicKeys == old(s.ecPublicKeys)
      ensures action.UpdateKey? && action.topic in subscriptions && action.listenerId in subscriptions[action.topic] ==>
                var target := subscriptions[action.topic][action.listenerId];
                && (match env.lib.parsePublicKey(action.publicKey)
                    case None => raised == Some(KeyError) && target.ecPublicKeys == old(target.ecPublicKeys)
                    case Some(key) => raised == None && target.ecPublicKeys == Some([key]))
                && forall s :: s in old(Repr) && s != target ==> s.ecPublicKeys == old(s.ecPublicKeys)
    {
      match action
      case SubscribeSigned(topic, publicKeys, listener, callback) =>
        ghost var id := NatToString(listenerCounter);
        events := SubscribeSigned(env.lib, env.transportAccepts(topic), topic, Some(publicKeys), listener, callback);
        raised := None;
        made := if KeysParse(env.lib, Some(publicKeys)) then Some(subscriptions[topic][id]) else None;
      case UpdateKey(topic, listenerId, publicKey) =>
        raised := UpdatePublicKey(env.lib, topic, listenerId, publicKey);
        events := [];
        made := None;
    }

    /** `getListener().messageArrived(topic, message, id)` for one entry. */
    method DeliverTo(env: Env, topic: string, e: Entry, st: State) returns (next: State, ghost made: Option<Subscription>)
      requires Valid()
      modifies this, Repr
      ensures Valid() && Grew()
      ensures publicKeyChangeListeners == old(publicKeyChangeListeners)
      ensures next.buffer == st.buffer && next.payload == st.payload
      ensures |st.requests| <= |next.requests| <= |st.requests| + 1 && next.requests[..|st.requests|] == st.requests
      ensures KeyUpdateFree(e) ==> ServedOne(env.lib, next.requests[|st.requests|..], made)
      ensures KeyUpdateFree(e) ==> next == Deliver(env, topic, st, old(ViewOf(e)))
      ensures KeyUpdateFree(e) ==> forall s :: s in old(Repr) ==> s.ecPublicKeys == old(s.ecPublicKeys)
    {
      var listener := e.sub.listener;
      next := st.(events := st.events + [Delivered(listener, topic, st.payload, e.id)], raised := None);
      made := None;
      match listener
      case AppListener(n) =>
        if n in env.throwingListeners {
          next := next.(raised := Some(ListenerError));
        }
        assert next.requests[|st.requests|..] == [];
      case KeyListener(ctl) =>
        var action := ctl.MessageArrived(st.payload);
        var more, raised;
        more, raised, made := Perform(env, action);
        next := next.(events := next.events + more, raised := raised, requests := next.requests + [action]);
        assert next.requests[|st.requests|..] == [action];
    }

    /** One iteration of the message listener's loop. */
    method HandleEntry(env: Env, topic: string, e: Entry, st: State) returns (next: State, ghost made: Option<Subscription>)
      requires Valid()
      requires st.raised.None? && st.buffer == messageValidator.replayDetector.buffer
      modifies this, Repr, messageValidator.replayDetector
      ensures Valid() && Grew()
      ensures publicKeyChangeListeners == old(publicKeyChangeListeners)
      ensures next.buffer == messageValidator.replayDetector.buffer
      ensures |st.requests| <= |next.requests| <= |st.requests| + 1 && next.requests[..|st.requests|] == st.requests
      ensures KeyUpdateFree(e) ==> ServedOne(env.lib, next.requests[|st.requests|..], made)
      ensures KeyUpdateFree(e) ==> next == Step(env, Window(), topic, st, old(ViewOf(e)))
      ensures KeyUpdateFree(e) ==> forall s :: s in old(Repr) ==> s.ecPublicKeys == old(s.ecPublicKeys)
    {
      var sub := e.sub;
      made := None;
      match sub.ecPublicKeys
      case Some(keys) =>
        var r := TrySignedKeys(env.lib, keys, st.payload, env.now);
        next := st.(buffer := messageValidator.replayDetector.buffer);
        if r.Failure? {
          next := next.(raised := Some(r.error));
        } else if r.value {
          next, made := DeliverTo(env, topic, e, next);
        }
      case None =>
        match sub.decryptPrivateKey
        case None =>
          next, made := DeliverTo(env, topic, e, st);
        case Some(key) =>
          var plain := env.lib.decrypt(st.payload, key);
          if plain.Failure? {
            next := st.(raised := Some(plain.error));
          } else {
            next, made := DeliverTo(env, topic, e, st.(payload := plain.value));
          }
    }

    /** `HandleEntry`, with what it served added to what the visit served
        before it. */
    method ServeEntry(env: Env, topic: string, e: Entry, st: State, ghost free: bool, ghost reg0: Registry,
                      ghost counter0: nat, ghost keys0: map<Subscription, Option<seq<EcPublicKey>>>,
                      ghost madeSoFar: seq<Option<Subscription>>)
      returns (next: State, ghost made: seq<Option<Subscription>>)
      requires Valid()
      requires st.raised.None? && st.buffer == messageValidator.replayDetector.buffer
      requires free ==> KeyUpdateFree(e) && Served(env.lib, reg0, counter0, keys0, st.requests, madeSoFar)
      modifies this, Repr, messageValidator.replayDetector
      ensures Valid() && Grew()
      ensures publicKeyChangeListeners == old(publicKeyChangeListeners)
      ensures next.buffer == messageValidator.replayDetector.buffer
      ensures free ==> next == Step(env, Window(), topic, st, old(ViewOf(e)))
      ensures free ==> forall s :: s in old(Repr) ==> s.ecPublicKeys == old(s.ecPublicKeys)
      ensures free ==> Served(env.lib, reg0, counter0, keys0, next.requests, made)
    {
      ghost var m: Option<Subscription>;
      next, m := HandleEntry(env, topic, e, st);
      made := madeSoFar;
      if free {
        var more := next.requests[|st.requests|..];
        assert next.requests == st.requests + more;
        forall s | s in keys0 ensures s in Repr && s.ecPublicKeys == keys0[s] {
          assert old(s in Repr && s.ecPublicKeys == keys0[s]);
        }
        forall k | 0 <= k < |madeSoFar| && madeSoFar[k].Some?
          ensures madeSoFar[k].value in Repr && madeSoFar[k].value !in keys0 && Answers(env.lib, st.requests[k], madeSoFar[k].value)
        {
          assert old(madeSoFar[k].value in Repr && madeSoFar[k].value !in keys0 && Answers(env.lib, st.requests[k], madeSoFar[k].value));
          assert madeSoFar[k].value.ecPublicKeys == old(madeSoFar[k].value.ecPublicKeys);
        }
        assert MadeAnswer(env.lib, Repr, keys0, st.requests, madeSoFar);
        if more == [] {
          assert next.requests == st.requests;
        } else {
          assert more == [more[0]];
          ServedAppend(env.lib, reg0, counter0, keys0, st.requests, madeSoFar, more[0], m,
                       old(subscriptions), old(listenerCounter), old(Repr));
          made := madeSoFar + [m];
        }
      }
    }

    /** The message listener: the matching entries are collected first, then
        visited in that order; the first exception escapes. When no key-change
        controller among them would replace keys, the outcome is `Run` over the
        entries as they were when the message arrived. */
    method MessageArrived(env: Env, topic: string, message: string)
      returns (events: seq<Event>, raised: Option<Error>, ghost snapshot: seq<Entry>, ghost made: seq<Option<Subscription>>)
      requires Valid()
      modifies this, Repr, messageValidator.replayDetector
      ensures Valid() && Grew()
      ensures publicKeyChangeListeners == old(publicKeyChangeListeners)
      ensures Enumerates(snapshot, old(subscriptions), env.lib, topic)
      ensures old(AllKeyUpdateFree(snapshot)) ==>
                var fin := Run(env, Window(), topic, State([], message, old(messageValidator.replayDetector.buffer), None, []),
                               old(ViewsOf(snapshot)));
                && events == fin.events && raised == fin.raised && messageValidator.replayDetector.buffer == fin.buffer
                && Served(env.lib, old(subscriptions), old(listenerCounter), old(KeysOf(Repr)), fin.requests, made)
    {
      var entries := GetSubscriptionsForTopic(env.lib, topic);
      snapshot := entries;
      forall k | 0 <= k < |entries| ensures entries[k].sub in Repr {
        assert Matches(subscriptions, env.lib, topic, entries[k]);
      }
      var st;
      st, made := Visit(env, topic, entries, State([], message, messageValidator.replayDetector.buffer, None, []));
      events, raised := st.events, st.raised;
    }

    /** The loop of the message listener over the collected entries. */
    method Visit(env: Env, topic: string, entries: seq<Entry>, init: State) returns (st: State, ghost made: seq<Option<Subscription>>)
      requires Valid()
      requires init.raised.None? && init.buffer == messageValidator.replayDetector.buffer && init.requests == []
      requires forall k :: 0 <= k < |entries| ==> entries[k].sub in Repr
      modifies this, Repr, messageValidator.replayDetector
      ensures Valid() && Grew()
      ensures publicKeyChangeListeners == old(publicKeyChangeListeners)
      ensures st.buffer == messageValidator.replayDetector.buffer
      ensures old(AllKeyUpdateFree(entries)) ==>
                && st == Run(env, Window(), topic, init, old(ViewsOf(entries)))
                && Served(env.lib, old(subscriptions), old(listenerCounter), old(KeysOf(Repr)), st.requests, made)
    {
      ghost var views := ViewsOf(entries);
      ghost var free := AllKeyUpdateFree(entries);
      ghost var reg0, counter0, keys0 := subscriptions, listenerCounter, KeysOf(Repr);
      st, made := init, [];
      var i := 0;
      while i < |entries|
        invariant 0 <= i <= |entries|
        invariant Valid() && Grew()
        invariant publicKeyChangeListeners == old(publicKeyChangeListeners)
        invariant st.raised.None? && st.buffer == messageValidator.replayDetector.buffer
        invariant free ==> AllKeyUpdateFree(entries)
        invariant free ==> forall k :: 0 <= k < |entries| ==> ViewOf(entries[k]) == views[k]
        invariant free ==> st == Run(env, Window(), topic, init, views[..i])
        invariant free ==> Served(env.lib, reg0, counter0, keys0, st.requests, made)
      {
        var next;
        ghost var madeNext;
        next, madeNext := ServeEntry(env, topic, entries[i], st, free, reg0, counter0, keys0, made);
        if free {
          RunAdvance(env, Window(), topic, init, views, i);
        }
        if next.raised.Some? {
          return next, madeNext;
        }
        st, made := next, madeNext;
        i := i + 1;
      }
      if free {
        assert views[..i] == views;
      }
    }
  }
}
