/** `Subscription`: one listener registered on one topic filter, with the public
    keys its messages must be signed with (signed mode) or the private key they
    are decrypted with (encrypted mode); with neither, messages pass as they are. */
module Subscriptions {
  import opened Common
  import opened JwsHelper
  import opened KeyChange

  /** Every PEM text of the key list parses (an absent list is fine). */
  predicate KeysParse(lib: Library, publicKeys: Option<seq<string>>) {
    publicKeys.None? || forall i :: 0 <= i < |publicKeys.value| ==> lib.parsePublicKey(publicKeys.value[i]).Some?
  }

  /** The parsed keys, one per PEM text and in the same order. */
  function ParsedKeys(lib: Library, publicKeys: Option<seq<string>>): (r: Option<seq<EcPublicKey>>)
    requires KeysParse(lib, publicKeys)
    ensures r.None? <==> publicKeys.None?
    ensures r.Some? ==> |r.value| == |publicKeys.value|
    ensures r.Some? ==> forall i :: 0 <= i < |r.value| ==> lib.parsePublicKey(publicKeys.value[i]) == Some(r.value[i])
  {
    match publicKeys
    case None => None
    case Some(pems) => Some(seq(|pems|, i requires 0 <= i < |pems| => lib.parsePublicKey(pems[i]).value))
  }

  /** The key-parsing loop of the constructors: fills an array of the same length
      as the PEM list, and throws at the first text that is not a key. */
  method ParsePublicKeys(lib: Library, publicKeys: Option<seq<string>>) returns (r: Result<Option<seq<EcPublicKey>>>)
    ensures KeysParse(lib, publicKeys) <==> r.Success?
    ensures r.Success? ==> KeysParse(lib, publicKeys) && r.value == ParsedKeys(lib, publicKeys)
    ensures r.Failure? ==> r.error == KeyError
  {
    if publicKeys.None? {
      return Success(None);
    }
    var pems := publicKeys.value;
    var keys := new EcPublicKey[|pems|];
    for i := 0 to |pems|
      invariant forall j :: 0 <= j < i ==> lib.parsePublicKey(pems[j]) == Some(keys[j])
    {
      var key := lib.parsePublicKey(pems[i]);
      if key.None? {
        return Failure(KeyError);
      }
      keys[i] := key.value;
    }
    assert KeysParse(lib, publicKeys);
    var parsed := ParsedKeys(lib, publicKeys).value;
    assert forall j :: 0 <= j < |pems| ==> parsed[j] == keys[j];
    assert keys[..] == parsed;
    return Success(Some(keys[..]));
  }

  class Subscription {
    const topic: string
    const listener: Listener
    var ecPublicKeys: Option<seq<EcPublicKey>>
    const decryptPrivateKey: Option<string>

    constructor (topic: string, listener: Listener, ecPublicKeys: Option<seq<EcPublicKey>>, decryptPrivateKey: Option<string>)
      ensures this.topic == topic && this.listener == listener
      ensures this.ecPublicKeys == ecPublicKeys && this.decryptPrivateKey == decryptPrivateKey
    {
      this.topic := topic;
      this.listener := listener;
      this.ecPublicKeys := ecPublicKeys;
      this.decryptPrivateKey := decryptPrivateKey;
    }

    /** `setEcPublicKeys`: replaces the key list. */
    method SetEcPublicKeys(keys: Option<seq<EcPublicKey>>)
      modifies this
      ensures ecPublicKeys == keys
    {
      ecPublicKeys := keys;
    }
  }

  /** The two constructors of `Subscription` (the three-argument one passes no
      decryption key): the public keys are parsed first, and a text that is not a
      key aborts construction with an exception. */
  method NewSubscription(lib: Library, topic: string, listener: Listener, publicKeys: Option<seq<string>>,
                         decryptPrivateKey: Option<string>) returns (r: Result<Subscription>)
    ensures r.Success? <==> KeysParse(lib, publicKeys)
    ensures r.Failure? ==> r.error == KeyError
    ensures r.Success? ==>
              && fresh(r.value)
              && r.value.topic == topic && r.value.listener == listener
              && r.value.ecPublicKeys == ParsedKeys(lib, publicKeys)
              && r.value.decryptPrivateKey == decryptPrivateKey
  {
    var keys := ParsePublicKeys(lib, publicKeys);
    if keys.Failure? {
      return Failure(keys.error);
    }
    var s := new Subscription(topic, listener, keys.value, decryptPrivateKey);
    return Success(s);
  }
}
