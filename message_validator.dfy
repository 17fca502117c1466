/** `MessageValidator`: checks the signature of a signed envelope against one
    public key and then asks its own `ReplayDetector` whether the header's
    (timestamp, message id) pair is fresh. A subscription with several keys tries
    them in order and stops at the first one that accepts (`TryKeys`). */
module Validator {
  import opened Common
  import opened JwsHelper
  import opened JwsProperties
  import opened Replay

  /** The outcome of the signature step: a bad signature, or a good one with the
      header's replay stamp. */
  datatype Verdict = BadSignature | Signed(timestamp: int, messageId: Nonce)

  /** Reads the replay stamp of a protected header: `(Long) timestamp` must be
      present and integral (a missing one is a NullPointerException on unboxing,
      another type a ClassCastException); `(String) messageid` may be absent. */
  function HeaderStamp(header: map<string, Json>): (r: Result<(int, Nonce)>)
    ensures r.Success? <==>
              "timestamp" in header && header["timestamp"].JNumber? && StringField(header, "messageid").Success?
    ensures r.Success? ==> r.value == (header["timestamp"].n, StringField(header, "messageid").value)
    ensures r.Failure? ==> r.error == MalformedEnvelope
  {
    if "timestamp" !in header || !header["timestamp"].JNumber? then Failure(MalformedEnvelope)
    else
      var messageId :- StringField(header, "messageid");
      Success((header["timestamp"].n, messageId))
  }

  /** The stamp of an envelope, whatever key it is checked against. */
  function StampOf(lib: Library, message: string): (r: Result<(int, Nonce)>)
  {
    var env :- ReadEnvelope(lib, message);
    HeaderStamp(env.header)
  }

  /** The signature step of `validateMessage`: the envelope is read, rebuilt in
      compact form and verified; only a correct signature leads to the header's
      stamp being read. */
  function Authenticate(lib: Library, message: string, key: EcPublicKey): (r: Result<Verdict>)
  {
    var env :- ReadEnvelope(lib, message);
    var correct :- VerifySignatureCompact(lib, CompactOf(lib, env), key);
    if !correct then Success(BadSignature)
    else
      var stamp :- HeaderStamp(env.header);
      Success(Signed(stamp.0, stamp.1))
  }

  /** `validateMessage` as a function of the replay buffer: the verdict (or the
      exception) and the buffer afterwards. */
  function Validate(lib: Library, b: Buffer, windowSeconds: int, message: string, key: EcPublicKey, now: int): (r: (Result<bool>, Buffer))
  {
    match Authenticate(lib, message, key)
    case Failure(e) => (Failure(e), b)
    case Success(BadSignature) => (Success(false), b)
    case Success(Signed(t, id)) =>
      var c := Check(b, windowSeconds, now, t, id);
      (Success(c.0), c.1)
  }

  /** The signature loop of the dispatcher: keys are tried in order; a key that
      says "no" passes to the next one, the first "yes" or exception ends it. */
  function TryKeys(lib: Library, b: Buffer, windowSeconds: int, message: string, keys: seq<EcPublicKey>, now: int): (r: (Result<bool>, Buffer))
    decreases |keys|
  {
    if keys == [] then (Success(false), b)
    else
      var v := Validate(lib, b, windowSeconds, message, keys[0], now);
      if v.0 == Success(false) then TryKeys(lib, b, windowSeconds, message, keys[1..], now)
      else v
  }

  // ---------------------------------------------------------------------------
  // What a verdict means

  /** The signature step of `validateMessage` is `JwsHelper.verifySignature`:
      both read the envelope the same way and rebuild the same compact string.
      A good signature then needs a readable stamp. */
  lemma AuthenticateMeaning(lib: Library, message: string, key: EcPublicKey)
    ensures VerifySignature(lib, message, key).Failure? ==>
              Authenticate(lib, message, key) == Failure(VerifySignature(lib, message, key).error)
    ensures VerifySignature(lib, message, key) == Success(false) ==> Authenticate(lib, message, key) == Success(BadSignature)
    ensures VerifySignature(lib, message, key) == Success(true) ==>
              match StampOf(lib, message)
              case Failure(e) => Authenticate(lib, message, key) == Failure(e)
              case Success((t, id)) => Authenticate(lib, message, key) == Success(Signed(t, id))
  {
  }

  /** `validateMessage` says yes exactly when the signature is correct, the
      stamp is readable, not older than the window and not seen before; it
      changes the buffer only when it says yes, and then records the stamp. */
  lemma ValidateMeaning(lib: Library, b: Buffer, windowSeconds: int, message: string, key: EcPublicKey, now: int)
    ensures var r := Validate(lib, b, windowSeconds, message, key, now);
            && (r.0 != Success(true) ==> r.1 == b)
            && (r.0 == Success(true) <==>
                  && VerifySignature(lib, message, key) == Success(true)
                  && StampOf(lib, message).Success?
                  && var (t, id) := StampOf(lib, message).value;
                     t >= Cutoff(now, windowSeconds) && !Seen(b, t, id))
            && (r.0 == Success(true) ==> var (t, id) := StampOf(lib, message).value; Seen(r.1, t, id))
            && (VerifySignature(lib, message, key) == Success(false) ==> r.0 == Success(false))
            && (VerifySignature(lib, message, key).Failure? ==> r.0.Failure?)
  {
    AuthenticateMeaning(lib, message, key);
  }

  // ---------------------------------------------------------------------------
  // The validator object

  class MessageValidator {
    const replayDetector: ReplayDetector

    constructor (bufferWindowInSeconds: int)
      requires IsInt32(bufferWindowInSeconds)
      ensures fresh(replayDetector)
      ensures replayDetector.buffer == map[]
      ensures replayDetector.bufferWindowInSeconds == bufferWindowInSeconds
    {
      replayDetector := new ReplayDetector(bufferWindowInSeconds);
    }

    /** `validateMessage`: a failed read or verification throws, a bad signature
        is `false`, a good one is decided by the replay detector. */
    method ValidateMessage(lib: Library, message: string, key: EcPublicKey, now: int) returns (r: Result<bool>)
      modifies replayDetector
      ensures (r, replayDetector.buffer)
           == Validate(lib, old(replayDetector.buffer), replayDetector.bufferWindowInSeconds, message, key, now)
    {
      var verdict := Authenticate(lib, message, key);
      if verdict.Failure? {
        return Failure(verdict.error);
      }
      match verdict.value
      case BadSignature =>
        return Success(false);
      case Signed(timestamp, messageId) =>
        var accepted := replayDetector.IsValid(timestamp, messageId, now);
        return Success(accepted);
    }
  }

  // ---------------------------------------------------------------------------
  // Properties of the key loop and of the shared detector

  /** `TryKeys` is decided by the first key whose verdict is not "no", checked
      against the buffer as it was before the loop. */
  lemma {:induction false} TryKeysFirstDecisive(lib: Library, b: Buffer, windowSeconds: int, message: string,
                                               keys: seq<EcPublicKey>, now: int, k: nat)
    requires k < |keys|
    requires forall j :: 0 <= j < k ==> Validate(lib, b, windowSeconds, message, keys[j], now).0 == Success(false)
    requires Validate(lib, b, windowSeconds, message, keys[k], now).0 != Success(false)
    ensures TryKeys(lib, b, windowSeconds, message, keys, now) == Validate(lib, b, windowSeconds, message, keys[k], now)
    decreases k
  {
    if k > 0 {
      assert keys[1..][k - 1] == keys[k];
      forall j | 0 <= j < k - 1
        ensures Validate(lib, b, windowSeconds, message, keys[1..][j], now).0 == Success(false)
      {
        assert keys[1..][j] == keys[j + 1];
      }
      TryKeysFirstDecisive(lib, b, windowSeconds, message, keys[1..], now, k - 1);
    }
  }

  /** When every key says "no", the loop says "no" and the buffer is untouched. */
  lemma {:induction false} TryKeysAllRejected(lib: Library, b: Buffer, windowSeconds: int, message: string,
                                             keys: seq<EcPublicKey>, now: int)
    requires forall j :: 0 <= j < |keys| ==> Validate(lib, b, windowSeconds, message, keys[j], now).0 == Success(false)
    ensures TryKeys(lib, b, windowSeconds, message, keys, now) == (Success(false), b)
    decreases |keys|
  {
    if keys != [] {
      forall j | 0 <= j < |keys| - 1
        ensures Validate(lib, b, windowSeconds, message, keys[1..][j], now).0 == Success(false)
      {
        assert keys[1..][j] == keys[j + 1];
      }
      TryKeysAllRejected(lib, b, windowSeconds, message, keys[1..], now);
    }
  }

  /** The key loop changes the buffer only when it says yes; a yes means one of
      the keys verifies the signature and the stamp was fresh and is now
      recorded. */
  lemma {:induction false} TryKeysMeaning(lib: Library, b: Buffer, windowSeconds: int, message: string,
                                         keys: seq<EcPublicKey>, now: int)
    ensures var r := TryKeys(lib, b, windowSeconds, message, keys, now);
            && (r.0 != Success(true) ==> r.1 == b)
            && (r.0 == Success(true) ==>
                  && (exists k :: 0 <= k < |keys| && VerifySignature(lib, message, keys[k]) == Success(true))
                  && StampOf(lib, message).Success?
                  && var (t, id) := StampOf(lib, message).value;
                     t >= Cutoff(now, windowSeconds) && !Seen(b, t, id) && Seen(r.1, t, id))
    decreases |keys|
  {
    if keys != [] {
      ValidateMeaning(lib, b, windowSeconds, message, keys[0], now);
      var v := Validate(lib, b, windowSeconds, message, keys[0], now);
      if v.0 == Success(false) {
        TryKeysMeaning(lib, b, windowSeconds, message, keys[1..], now);
        if TryKeys(lib, b, windowSeconds, message, keys[1..], now).0 == Success(true) {
          var k :| 0 <= k < |keys[1..]| && VerifySignature(lib, message, keys[1..][k]) == Success(true);
          assert keys[1..][k] == keys[k + 1];
        }
      }
    }
  }

  /** The detector is shared by every signed subscription: once one of them has
      accepted a message, a later subscription matching the same topic rejects
      that same text whatever keys it holds. */
  lemma SecondSubscriberStarved(lib: Library, b: Buffer, windowSeconds: int, message: string,
                                keys1: seq<EcPublicKey>, keys2: seq<EcPublicKey>, now: int)
    requires TryKeys(lib, b, windowSeconds, message, keys1, now).0 == Success(true)
    ensures TryKeys(lib, TryKeys(lib, b, windowSeconds, message, keys1, now).1, windowSeconds, message, keys2, now).0
         != Success(true)
  {
    TryKeysMeaning(lib, b, windowSeconds, message, keys1, now);
    TryKeysMeaning(lib, TryKeys(lib, b, windowSeconds, message, keys1, now).1, windowSeconds, message, keys2, now);
  }

  /** A message accepted once is rejected when presented again to the same
      validator and key. */
  lemma ReplayRejected(lib: Library, b: Buffer, windowSeconds: int, message: string, key: EcPublicKey, now: int, later: int)
    requires Validate(lib, b, windowSeconds, message, key, now).0 == Success(true)
    ensures Validate(lib, Validate(lib, b, windowSeconds, message, key, now).1, windowSeconds, message, key, later).0
         == Success(false)
  {
    ValidateMeaning(lib, b, windowSeconds, message, key, now);
    var b1 := Validate(lib, b, windowSeconds, message, key, now).1;
    ValidateMeaning(lib, b1, windowSeconds, message, key, later);
  }

  /** The stamp a receiver reads from a signed message is the signing time and
      the message id the signer put in the header. */
  lemma SignedMessageStamp(lib: Library, message: string, privateKeyPem: string, now: int, nonce: string)
    requires Lawful(lib) && SignerNonEmpty(lib)
    requires HeaderStable(lib, SignedHeader(now, nonce))
    requires SignMessageToCompact(lib, message, privateKeyPem, now, nonce).Success?
    ensures SignMessage(lib, message, privateKeyPem, now, nonce).Success?
    ensures StampOf(lib, SignMessage(lib, message, privateKeyPem, now, nonce).value) == Success((now, Some(nonce)))
  {
    SignedEnvelopeReads(lib, message, privateKeyPem, now, nonce);
  }

  /** A message signed at `now` and checked at once by a fresh validator with a
      key that verifies it is accepted; presented again, at any later time, it
      is rejected. */
  lemma SignedMessageAcceptedOnce(lib: Library, message: string, privateKeyPem: string, now: int, nonce: string,
                                  key: EcPublicKey, windowSeconds: int, later: int)
    requires Lawful(lib) && SignerNonEmpty(lib)
    requires HeaderStable(lib, SignedHeader(now, nonce))
    requires SignMessage(lib, message, privateKeyPem, now, nonce).Success?
    requires VerifySignature(lib, SignMessage(lib, message, privateKeyPem, now, nonce).value, key) == Success(true)
    requires 0 <= windowSeconds <= 2147483
    ensures var signed := SignMessage(lib, message, privateKeyPem, now, nonce).value;
            var first := Validate(lib, map[], windowSeconds, signed, key, now);
            && first.0 == Success(true)
            && Validate(lib, first.1, windowSeconds, signed, key, later).0 == Success(false)
  {
    var signed := SignMessage(lib, message, privateKeyPem, now, nonce).value;
    SignedMessageStamp(lib, message, privateKeyPem, now, nonce);
    ValidateMeaning(lib, map[], windowSeconds, signed, key, now);
    ReplayRejected(lib, map[], windowSeconds, signed, key, now, later);
  }

  /** A message signed five seconds before it reaches a fresh validator with a
      one-second window is rejected, and the detector records nothing. */
  lemma SignedStaleMessageRejected(lib: Library, message: string, privateKeyPem: string, now: int, nonce: string,
                                   key: EcPublicKey)
    requires Lawful(lib) && SignerNonEmpty(lib)
    requires HeaderStable(lib, SignedHeader(now - 5000, nonce))
    requires SignMessage(lib, message, privateKeyPem, now - 5000, nonce).Success?
    requires VerifySignature(lib, SignMessage(lib, message, privateKeyPem, now - 5000, nonce).value, key) == Success(true)
    ensures Validate(lib, map[], 1, SignMessage(lib, message, privateKeyPem, now - 5000, nonce).value, key, now)
         == (Success(false), map[])
  {
    SignedMessageStamp(lib, message, privateKeyPem, now - 5000, nonce);
    StaleMessageRejected(lib, SignMessage(lib, message, privateKeyPem, now - 5000, nonce).value, key, now);
  }

  /** A correctly signed message stamped more than the window before `now` is
      rejected by an empty detector: with a one-second window, five seconds is
      too old. */
  lemma StaleMessageRejected(lib: Library, message: string, key: EcPublicKey, now: int)
    requires VerifySignature(lib, message, key) == Success(true)
    requires StampOf(lib, message).Success? && StampOf(lib, message).value.0 == now - 5000
    ensures Validate(lib, map[], 1, message, key, now) == (Success(false), map[])
  {
    ValidateMeaning(lib, map[], 1, message, key, now);
  }
}
