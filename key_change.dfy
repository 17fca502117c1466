/** Listeners and callbacks, and `PublicKeyChangeListener`, the listener that
    follows a publisher's key topic. The controller does not call back into the
    client: it returns the call it would make (`KeyAction`), which `UbiMqtt`
    carries out. */
module KeyChange {
  import opened Common

  /** An `IUbiActionListener`: one of the application's callbacks, or the
      anonymous callback `subscribeFromPublisher` hands to the key-topic
      subscription, whose `onFailure` calls the original's. */
  datatype Callback = AppCallback(id: nat) | ForwardFailure(original: Callback)

  /** The application callback whose `onFailure` finally runs. */
  function FailureTarget(c: Callback): (r: Callback)
    ensures r.AppCallback?
    ensures c.AppCallback? ==> r == c
    ensures c.ForwardFailure? ==> r == FailureTarget(c.original)
  {
    match c
    case AppCallback(_) => c
    case ForwardFailure(original) => FailureTarget(original)
  }

  /** An `IUbiMessageListener`: one of the application's listeners, or a key-change
      controller. */
  datatype Listener = AppListener(id: nat) | KeyListener(controller: PublicKeyChangeListener)

  /** The call a key-change controller makes on the client. */
  datatype KeyAction =
    | SubscribeSigned(topic: string, publicKeys: seq<string>, listener: Listener, callback: Callback)
    | UpdateKey(topic: string, listenerId: string, publicKey: string)

  class PublicKeyChangeListener {
    const mainTopic: string
    const mainListener: Listener
    const originalCallback: Callback
    /** The id of the signed subscription this controller maintains; nothing
        ever assigns it after construction. */
    var mainListenerId: Option<string>

    constructor (mainTopic: string, mainListener: Listener, originalCallback: Callback)
      ensures this.mainTopic == mainTopic
      ensures this.mainListener == mainListener
      ensures this.originalCallback == originalCallback
      ensures mainListenerId == None
    {
      this.mainTopic := mainTopic;
      this.mainListener := mainListener;
      this.originalCallback := originalCallback;
      mainListenerId := None;
    }

    /** `messageArrived` on the key topic: with a known subscription id the new
        key replaces that subscription's keys; otherwise the first key opens a
        signed subscription to the main topic with that key alone, reporting to
        the application's original callback. */
    method MessageArrived(publicKey: string) returns (action: KeyAction)
      ensures mainListenerId.Some? <==> action.UpdateKey?
      ensures action.UpdateKey? ==> action == UpdateKey(mainTopic, mainListenerId.value, publicKey)
      ensures action.SubscribeSigned? ==> action == SubscribeSigned(mainTopic, [publicKey], mainListener, originalCallback)
    {
      if mainListenerId.Some? {
        action := UpdateKey(mainTopic, mainListenerId.value, publicKey);
      } else {
        action := SubscribeSigned(mainTopic, [publicKey], mainListener, originalCallback);
      }
    }
  }
}
