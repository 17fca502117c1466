# ubimqtt client core in Dafny

This project models the receive side of the ubimqtt Java client, an MQTT client that adds signed and encrypted messaging on top of the transport. It covers these parts:

- **`UbiMqtt`**: keeps a registry from topic filter to listener id to `Subscription` and hands out listener ids from a counter. It routes every incoming message to the subscriptions whose filter matches its topic:
  - a plain subscription receives the text as it is;
  - a signed one receives it only when one of its public keys validates it;
  - an encrypted one decrypts it first.
- **`Subscription`**: parses its PEM public keys when it is constructed.
- **`MessageValidator`**: checks the JWS signature of a message envelope, then asks its `ReplayDetector` whether the (timestamp, message id) pair of the protected header is fresh.
- **`ReplayDetector`**: keeps a time-sorted buffer of the pairs it has accepted.
- **`PublicKeyChangeListener`**: follows a publisher's key topic (`publishers/<name>/publicKey`) and opens a signed subscription to the main topic with the key it receives.
- **`JwsHelper`**: converts between the JWS Compact Serialization of section 7.1 of RFC 7515 (`header.payload.signature`) and the client's JSON envelope `{payload, signatures: [{protected, signature}]}`, and splits a compact string the way `String.split("\\.")` does.

## How the model is built

Library calls are the function-valued fields of `JwsHelper.Library`. They cover base64url, JSON parsing and printing, PEM parsing, ES512 signing and verification, JWE decryption and MQTT topic matching. The laws the round-trip lemmas rely on are stated as hypotheses (`Lawful`, `HeaderStable`, `SignerNonEmpty`).

Three things are parameters of the model rather than parts of it:

- the clock (`now`, epoch milliseconds);
- the random 12-character message id;
- whether the transport accepts a subscription.

Exceptions are `Result` values; `Common.Error` groups them by cause. Objects whose fields the Java code updates become classes with the same fields:

- `UbiMqtt`, `Subscription`, `ReplayDetector`, `MessageValidator` and `PublicKeyChangeListener`;
- in `UbiMqtt`, the registry is a `map` field, and a ghost `Repr` holds every subscription created so far.

Each method is proved against a function on values:

- `ReplayDetector.IsValid` against `Replay.Check`;
- `MessageValidator.ValidateMessage` against `Validator.Validate`;
- the key loop against `Validator.TryKeys`;
- the message listener against `Dispatch.Run`.

The properties are then proved about those functions.

A key-change controller does not call back into the client. It returns the call it would make (`KeyChange.KeyAction`), and `UbiMqtt` carries that call out.

## Model

| member | source | states |
|---|---|---|
| Common.WrapInt32 | ubimqtt/src/main/java/fi/helsinki/ubimqtt/ReplayDetector.java:38 | the result is a 32-bit value congruent to the input modulo 2^32, and equal to it when it already fits |
| Common.NatToString | ubimqtt/src/main/java/fi/helsinki/ubimqtt/UbiMqtt.java:111 | the listener id `listenerCounter + ""` is a non-empty string of decimal digits, one digit exactly below 10 |
| Common.NatToStringRoundTrip | ubimqtt/src/main/java/fi/helsinki/ubimqtt/UbiMqtt.java:111-112 | reading the decimal id back gives the counter value it was made from |
| Common.NatToStringInjective | ubimqtt/src/main/java/fi/helsinki/ubimqtt/UbiMqtt.java:111-112 | different counter values give different listener ids |
| JwsHelper.EnvelopeFields | ubimqtt/src/main/java/fi/helsinki/ubimqtt/JwsHelper.java:152-166 | a successful read means the value is an object with a string payload and a first signature object holding an object `protected`; every other shape fails as a malformed envelope |
| JwsHelper.JsonToCompact | ubimqtt/src/main/java/fi/helsinki/ubimqtt/JwsHelper.java:152-166 | the compact string is built from the fields the envelope reads as; partner: `JwsProperties.CompactJsonRoundTrip` |
| JwsHelper.CompactToJson | ubimqtt/src/main/java/fi/helsinki/ubimqtt/JwsHelper.java:121-149 | splits the compact string and builds the envelope of its three segments; partner: `JwsProperties.EnvelopeFieldsOfBuild` and `JwsProperties.CompactJsonRoundTrip` |
| JwsHelper.VerifySignatureCompact | ubimqtt/src/main/java/fi/helsinki/ubimqtt/JwsHelper.java:63-75 | a compact string with fewer than three segments throws an index error before the verifier is called |
| JwsHelper.VerifySignature | ubimqtt/src/main/java/fi/helsinki/ubimqtt/JwsHelper.java:38-40 | converts the envelope to compact form, then verifies it; partner: `Validator.AuthenticateMeaning` |
| JwsHelper.SignMessageToCompact | ubimqtt/src/main/java/fi/helsinki/ubimqtt/JwsHelper.java:81-119 | signs the payload under the header `{alg: ES512, timestamp, messageid}`; partner: `JwsProperties.SignedHeaderFields` |
| JwsHelper.SignMessage | ubimqtt/src/main/java/fi/helsinki/ubimqtt/JwsHelper.java:77-79 | `compactToJson(signMessageToCompact(...))`; partner: `JwsProperties.SignedCompactRoundTrip` and `JwsProperties.SignedEnvelopeReads` |
| JwsProperties.EnvelopeFieldsOfBuild | ubimqtt/src/main/java/fi/helsinki/ubimqtt/JwsHelper.java:121-149 | reading back the envelope `compactToJson` builds yields exactly its header, payload and signature text |
| JwsProperties.OnlyFirstSignatureRead | ubimqtt/src/main/java/fi/helsinki/ubimqtt/JwsHelper.java:155-163 | envelopes that agree on `payload` and `signatures[0]` read the same, whatever else `signatures` holds |
| JwsProperties.CompactOfSplits | ubimqtt/src/main/java/fi/helsinki/ubimqtt/JwsHelper.java:121-126 | a compact string rebuilt from an envelope with a non-empty, dot-free signature splits into exactly its three segments |
| JwsProperties.CompactJsonRoundTrip | ubimqtt/src/main/java/fi/helsinki/ubimqtt/JwsHelper.java:121-166 | `jsonToCompact(compactToJson(c)) == c` for every compact string whose header json-simple re-prints unchanged and whose signature segment is non-empty |
| JwsProperties.SignedCompactRoundTrip | ubimqtt/src/main/java/fi/helsinki/ubimqtt/JwsHelper.java:77-119 | the envelope `signMessage` returns converts back to exactly the compact string `signMessageToCompact` produced |
| JwsProperties.SignedEnvelopeReads | ubimqtt/src/main/java/fi/helsinki/ubimqtt/JwsHelper.java:77-119 | the envelope `signMessage` returns reads back with the signed message as its payload and the signing header as its protected header |
| JwsProperties.SignedHeaderFields | ubimqtt/src/main/java/fi/helsinki/ubimqtt/JwsHelper.java:99-102 | a receiver decoding a signed message finds `alg` = ES512, the signing time as `timestamp` and a 12-character alphanumeric `messageid` |
| JwsProperties.VerifyCompactSegments | ubimqtt/src/main/java/fi/helsinki/ubimqtt/JwsHelper.java:63-75 | the verifier receives the header, payload and signature segments of a well-formed compact string |
| JwsProperties.VerifyCompactIgnoresExtraSegments | ubimqtt/src/main/java/fi/helsinki/ubimqtt/JwsHelper.java:65-69 | segments after the third do not change the verdict |
| JwsProperties.EmptySignatureSegmentThrows | ubimqtt/src/main/java/fi/helsinki/ubimqtt/JwsHelper.java:65-69 | an empty signature segment is dropped by the split, so reading `parts[2]` throws |
| Replay.Cutoff | ubimqtt/src/main/java/fi/helsinki/ubimqtt/ReplayDetector.java:38 | for 0 <= windowSeconds <= 2147483 (where the 32-bit product fits), the cutoff is `now` minus the window in milliseconds |
| Replay.Evict | ubimqtt/src/main/java/fi/helsinki/ubimqtt/ReplayDetector.java:47-55 | exactly the buckets at or above the cutoff remain, with their contents unchanged |
| Replay.Record | ubimqtt/src/main/java/fi/helsinki/ubimqtt/ReplayDetector.java:21-33 | the id joins the bucket of its timestamp, which is created if absent; every other bucket is unchanged |
| Replay.Check | ubimqtt/src/main/java/fi/helsinki/ubimqtt/ReplayDetector.java:35-60 | accepts iff the timestamp is not below the cutoff and the pair was not seen; a rejection leaves the buffer alone; an acceptance evicts old buckets and records the pair, and no other pair changes |
| Replay.ReplayDetector.constructor | ubimqtt/src/main/java/fi/helsinki/ubimqtt/ReplayDetector.java:14-19 | the buffer starts empty with the given window |
| Replay.ReplayDetector.AddEntry | ubimqtt/src/main/java/fi/helsinki/ubimqtt/ReplayDetector.java:21-33 | the new buffer is the old one with the pair recorded |
| Replay.ReplayDetector.IsValid | ubimqtt/src/main/java/fi/helsinki/ubimqtt/ReplayDetector.java:35-60 | the verdict and the new buffer are those of `Check` on the old buffer; the loop removes the least keys below the cutoff in ascending order and stops at the first that is not |
| Replay.Verdicts | ubimqtt/src/main/java/fi/helsinki/ubimqtt/ReplayDetector.java:35-60 | one verdict per call of a sequence of `isValid` calls on one detector |
| Replay.StaysRejected | ubimqtt/src/main/java/fi/helsinki/ubimqtt/ReplayDetector.java:38-44 | a pair that is recorded or already too old is rejected by every later call while the clock does not run backwards |
| Replay.NeverAcceptedTwice | ubimqtt/src/main/java/fi/helsinki/ubimqtt/ReplayDetector.java:35-60 | while the clock does not run backwards, no (timestamp, id) pair is accepted twice |
| Replay.WideWindowRejectsFreshMessage | ubimqtt/src/main/java/fi/helsinki/ubimqtt/ReplayDetector.java:38 | for a window of 2147484 to 4294967 seconds the 32-bit product wraps negative, the cutoff is `now` plus the wrapped amount and lies in the future, and a message stamped now is rejected whatever the buffer holds (wider windows wrap again and are not covered) |
| Validator.SignedMessageStamp | ubimqtt/src/main/java/fi/helsinki/ubimqtt/JwsHelper.java:77-119 | the stamp a validator reads from a message `signMessage` produced is the signing time and the message id put into its header |
| Validator.Authenticate | ubimqtt/src/main/java/fi/helsinki/ubimqtt/MessageValidator.java:22-38 | the signature step of `validateMessage`; partner: `Validator.AuthenticateMeaning` |
| Validator.Validate | ubimqtt/src/main/java/fi/helsinki/ubimqtt/MessageValidator.java:22-45 | `validateMessage` on a buffer value; partner: `Validator.ValidateMeaning` |
| Validator.AuthenticateMeaning | ubimqtt/src/main/java/fi/helsinki/ubimqtt/MessageValidator.java:22-38 | the signature step agrees with `JwsHelper.verifySignature`: the same exceptions, false for a bad signature and the header stamp for a good one |
| Validator.ValidateMeaning | ubimqtt/src/main/java/fi/helsinki/ubimqtt/MessageValidator.java:22-45 | `validateMessage` says yes iff the signature verifies, the stamp reads, is inside the window and is unseen; only a yes changes the buffer, and it records the stamp |
| Validator.MessageValidator.constructor | ubimqtt/src/main/java/fi/helsinki/ubimqtt/MessageValidator.java:18-20 | a fresh detector with an empty buffer and the given window |
| Validator.MessageValidator.ValidateMessage | ubimqtt/src/main/java/fi/helsinki/ubimqtt/MessageValidator.java:22-45 | the result and the detector's new buffer are those of `Validate` on the old buffer |
| Validator.TryKeysFirstDecisive | ubimqtt/src/main/java/fi/helsinki/ubimqtt/UbiMqtt.java:74-80 | the key loop is decided by the first key whose verdict is not "no" |
| Validator.TryKeysAllRejected | ubimqtt/src/main/java/fi/helsinki/ubimqtt/UbiMqtt.java:74-80 | when every key says no, the loop says no and the buffer is untouched |
| Validator.TryKeysMeaning | ubimqtt/src/main/java/fi/helsinki/ubimqtt/UbiMqtt.java:74-80 | only a yes changes the buffer; a yes means some key verifies the signature and the stamp was fresh and is now recorded |
| Validator.TryKeys | ubimqtt/src/main/java/fi/helsinki/ubimqtt/UbiMqtt.java:74-80 | the key loop on a buffer value; partner: `Validator.TryKeysFirstDecisive`, `Validator.TryKeysAllRejected`, `Validator.TryKeysMeaning` |
| Validator.SecondSubscriberStarved | ubimqtt/src/main/java/fi/helsinki/ubimqtt/UbiMqtt.java:68-80 | once one signed subscription accepts a message, a later one matching the same topic rejects the same text whatever its keys |
| Validator.ReplayRejected | ubimqtt/src/main/java/fi/helsinki/ubimqtt/MessageValidator.java:22-45 | a message accepted once is rejected when presented again |
| Validator.SignedMessageAcceptedOnce | ubimqtt/src/test/java/fi/helsinki/ubimqtt/MessageValidatorTest.java:50-78 | a message `signMessage` produced, whose signature the key verifies, is accepted on first validation and rejected when validated again |
| Validator.StaleMessageRejected | ubimqtt/src/main/java/fi/helsinki/ubimqtt/ReplayDetector.java:38-39 | a correctly signed message stamped five seconds ago is rejected under a one-second window |
| Validator.SignedStaleMessageRejected | ubimqtt/src/test/java/fi/helsinki/ubimqtt/MessageValidatorTest.java:82-110 | a message `signMessage` produced five seconds before validation is rejected under a one-second window, and the buffer stays empty |
| KeyChange.FailureTarget | ubimqtt/src/main/java/fi/helsinki/ubimqtt/UbiMqtt.java:358-366 | following forwarding callbacks ends at an application callback |
| KeyChange.PublicKeyChangeListener.constructor | ubimqtt/src/main/java/fi/helsinki/ubimqtt/PublicKeyChangeListener.java:15-22 | the controller keeps the main topic, listener and original callback, and has no subscription id yet |
| KeyChange.PublicKeyChangeListener.MessageArrived | ubimqtt/src/main/java/fi/helsinki/ubimqtt/PublicKeyChangeListener.java:24-33 | with a known subscription id the key replaces that subscription's keys; otherwise the key opens a signed subscription to the main topic with that key alone, reporting to the original callback |
| Subscriptions.ParsedKeys | ubimqtt/src/main/java/fi/helsinki/ubimqtt/Subscription.java:21-29 | one parsed key per PEM text, in the same order; no list gives no keys |
| Subscriptions.ParsePublicKeys | ubimqtt/src/main/java/fi/helsinki/ubimqtt/Subscription.java:21-29 | the loop succeeds iff every PEM text parses, then yields exactly `ParsedKeys`; otherwise it throws a key error |
| Subscriptions.Subscription.constructor | ubimqtt/src/main/java/fi/helsinki/ubimqtt/Subscription.java:16-20 | the subscription holds the given topic, listener, keys and decryption key |
| Subscriptions.Subscription.SetEcPublicKeys | ubimqtt/src/main/java/fi/helsinki/ubimqtt/Subscription.java:56-58 | the key list is replaced |
| Subscriptions.NewSubscription | ubimqtt/src/main/java/fi/helsinki/ubimqtt/Subscription.java:16-46 | construction succeeds iff the keys parse, yielding a fresh subscription with the parsed keys; otherwise it throws a key error |
| Dispatch.Notify | ubimqtt/src/main/java/fi/helsinki/ubimqtt/UbiMqtt.java:358-366 | a failure calls the callback's `onFailure` first, and the last call reaches the wrapped application callback, all with the same error |
| Dispatch.SubscribeOutcome | ubimqtt/src/main/java/fi/helsinki/ubimqtt/UbiMqtt.java:106-121 | no failure is reported iff the keys parse and the transport accepts; a key error takes precedence over a transport error |
| Dispatch.Deliver | ubimqtt/src/main/java/fi/helsinki/ubimqtt/UbiMqtt.java:77-91 | the listener is called once with the current text and id; text and buffer are unchanged; only a throwing application listener raises; a key-change controller asks for exactly one signed subscription to its main topic with the text as its key |
| Dispatch.Step | ubimqtt/src/main/java/fi/helsinki/ubimqtt/UbiMqtt.java:70-91 | one loop iteration asks for at most one signed subscription, only for a key-change controller, and keeps the earlier requests |
| Dispatch.Run | ubimqtt/src/main/java/fi/helsinki/ubimqtt/UbiMqtt.java:62-96 | the loop over the matching subscriptions; partner: `Dispatch.RunAppend`, `Dispatch.RaisedStops`, `Ubi.UbiMqtt.Visit` |
| Dispatch.RunAdvance | ubimqtt/src/main/java/fi/helsinki/ubimqtt/UbiMqtt.java:68-93 | the visit of one more entry is one more `Step`, and an exception there ends the visit |
| Dispatch.RunAppend | ubimqtt/src/main/java/fi/helsinki/ubimqtt/UbiMqtt.java:68-93 | visiting two lists in turn is visiting their concatenation |
| Dispatch.RaisedStops | ubimqtt/src/main/java/fi/helsinki/ubimqtt/UbiMqtt.java:62-96 | after an exception no listener is called and the buffer and text stay as they are |
| Dispatch.RunKeepsEvents | ubimqtt/src/main/java/fi/helsinki/ubimqtt/UbiMqtt.java:68-93 | the visit only appends observations |
| Dispatch.PlainSubscribersAllReceive | ubimqtt/src/main/java/fi/helsinki/ubimqtt/UbiMqtt.java:83-85 | plain, non-throwing subscriptions each receive the message unchanged, in order, and the replay buffer is not consulted |
| Dispatch.DecryptionRewritesLaterPayload | ubimqtt/src/main/java/fi/helsinki/ubimqtt/UbiMqtt.java:86-90 | after an encrypted subscription decrypts the message, a plain subscription that follows receives the plaintext |
| Dispatch.SeenStampStarvesSigned | ubimqtt/src/main/java/fi/helsinki/ubimqtt/UbiMqtt.java:72-80 | once the message's stamp is in the buffer, only unsigned subscriptions receive the text, when no matching subscription decrypts |
| Dispatch.OneSignedSubscriberPerMessage | ubimqtt/src/main/java/fi/helsinki/ubimqtt/UbiMqtt.java:72-80 | after one signed subscription receives a message, no later signed subscription matching the topic does, when no later matching subscription decrypts |
| Ubi.ServerUri | ubimqtt/src/main/java/fi/helsinki/ubimqtt/UbiMqtt.java:157-160 | prefixes "tcp://" unless the address has it; partner: `Ubi.ServerUriNormalises` |
| Ubi.PublisherKeyTopic | ubimqtt/src/main/java/fi/helsinki/ubimqtt/UbiMqtt.java:355 | `publishers/<name>/publicKey`; partner: `Ubi.PublisherKeyTopicInjective` |
| Ubi.ServerUriNormalises | ubimqtt/src/main/java/fi/helsinki/ubimqtt/UbiMqtt.java:157-160 | the address always carries "tcp://", keeps the given address as its suffix, and normalising twice changes nothing |
| Ubi.PublisherKeyTopicInjective | ubimqtt/src/main/java/fi/helsinki/ubimqtt/UbiMqtt.java:355 | different publishers have different key topics |
| Ubi.FreshListenerId | ubimqtt/src/main/java/fi/helsinki/ubimqtt/UbiMqtt.java:111-114 | the id made from the current counter is not yet used under any filter, and it is valid for the next counter value |
| Ubi.DrawnIdsDistinct | ubimqtt/src/main/java/fi/helsinki/ubimqtt/UbiMqtt.java:111-112 | two calls of one run of `addSubscription` draw different listener ids |
| Ubi.AfterAddsKeeps | ubimqtt/src/main/java/fi/helsinki/ubimqtt/UbiMqtt.java:106-121 | a run of `addSubscription` calls keeps every entry filed before it |
| Ubi.AfterAddsFiles | ubimqtt/src/main/java/fi/helsinki/ubimqtt/UbiMqtt.java:106-121 | a run files the k-th constructed subscription under its filter and the id drawn by the k-th call |
| Ubi.AfterAddsOnly | ubimqtt/src/main/java/fi/helsinki/ubimqtt/UbiMqtt.java:106-121 | a run files nothing but the subscriptions its calls constructed |
| Ubi.AfterAddsAppend | ubimqtt/src/main/java/fi/helsinki/ubimqtt/UbiMqtt.java:106-121 | two runs in a row, the second starting at the counter the first left, are one run over both |
| Ubi.AnnouncementsAccumulate | ubimqtt/src/main/java/fi/helsinki/ubimqtt/PublicKeyChangeListener.java:24-33 | N announced keys, each opening a signed subscription to the main topic, leave N subscriptions there under N distinct ids, each holding its own key alone, and every older entry in place |
| Ubi.UbiMqtt.constructor | ubimqtt/src/main/java/fi/helsinki/ubimqtt/UbiMqtt.java:170-183 | an empty registry, counter 0, no controllers, a fresh validator with an empty buffer and the given window, and a normalised server address |
| Ubi.UbiMqtt.WithDefaultWindow | ubimqtt/src/main/java/fi/helsinki/ubimqtt/UbiMqtt.java:150-163 | as the other constructor, with the 60-second default window |
| Ubi.UbiMqtt.AddSubscription | ubimqtt/src/main/java/fi/helsinki/ubimqtt/UbiMqtt.java:106-138 | the counter moves on by one; the filter gets an inner map; a subscription whose keys parse is filed, fresh, under the unused id; failures go to the callback; the registry invariant is kept |
| Ubi.UbiMqtt.Register | ubimqtt/src/main/java/fi/helsinki/ubimqtt/UbiMqtt.java:114 | filing succeeds iff the keys parse; a failure leaves the registry unchanged |
| Ubi.UbiMqtt.Subscribe | ubimqtt/src/main/java/fi/helsinki/ubimqtt/UbiMqtt.java:314-316 | registers a plain subscription as `addSubscription` does |
| Ubi.UbiMqtt.SubscribeSigned | ubimqtt/src/main/java/fi/helsinki/ubimqtt/UbiMqtt.java:336-338 | registers a signed subscription with the parsed keys |
| Ubi.UbiMqtt.SubscribeEncrypted | ubimqtt/src/main/java/fi/helsinki/ubimqtt/UbiMqtt.java:324-326 | registers a subscription holding the decryption key |
| Ubi.UbiMqtt.SubscribeFromPublisher | ubimqtt/src/main/java/fi/helsinki/ubimqtt/UbiMqtt.java:350-368 | appends a fresh controller for the main topic and registers it on the publisher's key topic; any failure is reported, finally to the caller's callback |
| Ubi.UbiMqtt.UpdatePublicKey | ubimqtt/src/main/java/fi/helsinki/ubimqtt/UbiMqtt.java:98-104 | an existing entry gets the new key as its only key; a key that does not parse throws and leaves it unchanged; an unknown filter or id is ignored |
| Ubi.UbiMqtt.GetSubscriptionsForTopic | ubimqtt/src/main/java/fi/helsinki/ubimqtt/UbiMqtt.java:44-60 | exactly the entries under every filter that matches the topic, each once |
| Ubi.UbiMqtt.EntriesOf | ubimqtt/src/main/java/fi/helsinki/ubimqtt/UbiMqtt.java:52-55 | every entry of one filter's inner map, each once, and nothing else |
| Ubi.UbiMqtt.TrySignedKeys | ubimqtt/src/main/java/fi/helsinki/ubimqtt/UbiMqtt.java:74-80 | the verdict and new replay buffer are those of `TryKeys` |
| Ubi.UbiMqtt.Perform | ubimqtt/src/main/java/fi/helsinki/ubimqtt/PublicKeyChangeListener.java:24-33 | a subscribe request is registered as `subscribeSigned` does, moving the counter on by one and filing the subscription it makes exactly when the key parses; a key update reports nothing, can raise only a key error, leaves registry and counter alone, gives the target entry the parsed key as its only key (or keeps its keys on a key error), and changes no other subscription's keys; the controllers are unchanged |
| Ubi.UbiMqtt.DeliverTo | ubimqtt/src/main/java/fi/helsinki/ubimqtt/UbiMqtt.java:77-90 | when no key update is involved (the controller has no main listener id yet), one listener call is `Deliver` over the entry as it was, a controller's request is carried out as its one registry filing, and no existing subscription's keys change; in every case the controllers are unchanged and at most one request is added |
| Ubi.UbiMqtt.HandleEntry | ubimqtt/src/main/java/fi/helsinki/ubimqtt/UbiMqtt.java:70-91 | one loop iteration is one `Step` over the subscription as it was, and its effect on the client is serving the request that step made, if any, when no key update is involved |
| Ubi.UbiMqtt.ServeEntry | ubimqtt/src/main/java/fi/helsinki/ubimqtt/UbiMqtt.java:70-91 | when no key update is involved, an iteration is one `Step` over the entry as it was, keeps every old subscription's keys, and extends what the visit has served by the request it made; in every case the controllers are unchanged |
| Ubi.UbiMqtt.ServedAppend | ubimqtt/src/main/java/fi/helsinki/ubimqtt/UbiMqtt.java:106-121 | serving one more signed-subscription request extends the record of served requests by it |
| Ubi.UbiMqtt.AnnouncementsServed | ubimqtt/src/main/java/fi/helsinki/ubimqtt/PublicKeyChangeListener.java:24-33 | once N key announcements for a main topic are served, the registry holds N signed subscriptions there under distinct ids, each with its own announced key alone, and every entry filed before |
| Ubi.UbiMqtt.Visit | ubimqtt/src/main/java/fi/helsinki/ubimqtt/UbiMqtt.java:68-93 | the loop's outcome is `Run` over the entries as they were, and the client afterwards is the old registry with one `addSubscription` filing per request the visit made, in order, the counter moved on by their number, and every old subscription's keys unchanged, when no key update is involved |
| Ubi.UbiMqtt.MessageArrived | ubimqtt/src/main/java/fi/helsinki/ubimqtt/UbiMqtt.java:62-96 | the message listener collects exactly the matching entries; when none of them is a key-change controller that would replace keys, the observations, exception and replay buffer are those of `Run` over them, and the registry, counter and keys are those after serving `Run`'s signed-subscription requests in order; the controllers are unchanged |

## Left out

- Connecting, disconnecting and publishing (`connect`, `disconnect`, `publish`, `publishSigned`, `publishEncrypted`, `encryptMessage`, and `UbiMqtt.signMessage`) only drive the transport. They are not part of this model; `JwsHelper.signMessage` and `signMessageToCompact` are modelled.
- The Paho MQTT transport, the client id (a random UUID) and the `onSuccess` callback are out. Whether the transport's `subscribe` throws is the parameter `accepted`.
- Whether an application listener throws is decided by its id alone (`Env.throwingListeners`), and whether the transport accepts a subscription by its topic alone (`Env.transportAccepts`). So one visit cannot show a listener that throws on one text but not another, or two subscriptions to one topic with different transport answers.
- Base64url, JSON, PEM, ES512 signing and verification, JWE encryption and decryption, and MQTT topic matching are library code. They are `Library` parameters, and only the laws stated in `Lawful`, `HeaderStable` and `SignerNonEmpty` are assumed of them.
- `JwsHelper.encryptMessage` is left out: it is used only when publishing.
- `createEcPublicKey` is left out as a separate member: its result is `Library.parsePublicKey`.
- The `String`-key overloads of `verifySignature` and `verifySignatureCompact` are left out: they only parse the key first.
- `Replay.ReplayDetector.IsValid` reads the clock once, as `now`. The source reads `System.currentTimeMillis()` afresh for the first check and for every loop step, so a clock that advances during the call can evict more than the model does.
- The `long` timestamps are unbounded integers; their 64-bit overflow is not modelled. The 32-bit product `bufferWindowInSeconds*1000` is modelled with its wrap-around.
- `Ubi.UbiMqtt.AddSubscription`: `listenerCounter` is a Java `int`. The model's counter is unbounded, so the wrap after 2^31 subscriptions, and the negative ids it would produce, are not modelled.
- `Subscription` declares its decryption key as `String[]`, while `UbiMqtt` passes and `decryptMessage` expects a single `String`. The model follows the callers: the key is an optional string.
- The `ECPublicKey[]` array is shared between `Subscription` and its getter. The model holds the keys as a sequence, so aliasing of that array is not captured.
- Concurrency is not modelled: `synchronizedMap`, the transport's callback thread, and a listener running while another thread subscribes.
- HashMap iteration order is unspecified in Java. `Ubi.UbiMqtt.GetSubscriptionsForTopic` picks filters and ids in an arbitrary order, and its contract holds for every order.
- `Ubi.UbiMqtt.MessageArrived`: the functional description by `Run`, and the description of the registry, counter and keys afterwards, are proved only when no matching key-change controller would replace a subscription's keys during the visit. In that case the later entries see the keys as they were when the message arrived. Otherwise the method still keeps the registry invariant and the controller list, but its outcome is not described.
- `PublicKeyChangeListener.mainListenerId` is never assigned after construction in the source, so the key-update branch is never taken by the code as written. The model keeps the field and the branch.
- JSON numbers: an integral number is `JNumber`, one with a fraction or an exponent is `JDouble`, kept as its literal text. The value of a Java `double` and its rounding are not modelled; the model only needs to know that such a timestamp is not a `Long`.
- Logging (`printStackTrace`, `System.out`) is left out.
