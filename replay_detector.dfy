/** The replay window of `ReplayDetector`: a map sorted by timestamp (epoch
    milliseconds) from each timestamp to the message ids already accepted at it.
    The policy is time-based: with `cutoff = now - bufferWindowInSeconds*1000`, a
    timestamp below the cutoff is rejected, an exact (timestamp, id) repeat is
    rejected, and an accepted message first evicts the buckets below the cutoff,
    then is recorded. The clock reading `now` is a parameter. */
module Replay {
  import opened Common

  /** A message id; `None` is the `null` id of a header without `messageid`,
      which the source's `HashMap` stores like any other key. */
  type Nonce = Option<string>

  /** The buffer: timestamp -> ids seen at that timestamp (the source's inner
      `Map<String, Boolean>` only ever maps to `true`, so it is a set). */
  type Buffer = map<int, set<Nonce>>

  /** `now - (bufferWindowInSeconds*1000)`: the product is 32-bit `int`
      arithmetic and wraps around before it is widened to `long`. */
  function Cutoff(now: int, windowSeconds: int): (c: int)
    ensures 0 <= windowSeconds <= 2147483 ==> c == now - windowSeconds * 1000
  {
    now - WrapInt32(windowSeconds * 1000)
  }

  /** The pair has been recorded. */
  predicate Seen(b: Buffer, timestamp: int, messageId: Nonce) {
    timestamp in b && messageId in b[timestamp]
  }

  /** The buffer without the buckets below the cutoff. */
  function Evict(b: Buffer, cutoff: int): (r: Buffer)
    ensures forall t :: t in r <==> t in b && t >= cutoff
    ensures forall t :: t in r ==> r[t] == b[t]
  {
    map t | t in b && t >= cutoff :: b[t]
  }

  /** `addEntry`: the id joins the bucket of its timestamp, which is created if
      absent; every other bucket and every other id stays as it was. */
  function Record(b: Buffer, timestamp: int, messageId: Nonce): (r: Buffer)
    ensures r.Keys == b.Keys + {timestamp}
    ensures Seen(r, timestamp, messageId)
    ensures timestamp in b ==> r[timestamp] == b[timestamp] + {messageId}
    ensures timestamp !in b ==> r[timestamp] == {messageId}
    ensures forall t :: t in b && t != timestamp ==> r[t] == b[t]
  {
    var bucket := if timestamp in b then b[timestamp] else {};
    b[timestamp := bucket + {messageId}]
  }

  /** `isValid` as a function of the buffer before the call: the verdict and the
      buffer after it. */
  function Check(b: Buffer, windowSeconds: int, now: int, timestamp: int, messageId: Nonce): (r: (bool, Buffer))
    ensures r.0 <==> timestamp >= Cutoff(now, windowSeconds) && !Seen(b, timestamp, messageId)
    ensures !r.0 ==> r.1 == b
    ensures r.0 ==> Seen(r.1, timestamp, messageId)
    ensures r.0 ==> forall t :: t in r.1 ==> t >= Cutoff(now, windowSeconds)
    ensures r.0 ==> forall t, id :: t != timestamp || id != messageId ==>
                      (Seen(r.1, t, id) <==> Seen(b, t, id) && t >= Cutoff(now, windowSeconds))
  {
    var cutoff := Cutoff(now, windowSeconds);
    if timestamp < cutoff then (false, b)
    else if Seen(b, timestamp, messageId) then (false, b)
    else (true, Record(Evict(b, cutoff), timestamp, messageId))
  }

  /** A set of timestamps with an element has a least element (the first key
      of the sorted map). */
  lemma {:induction false} MinExists(s: set<int>)
    requires exists x :: x in s
    ensures exists m :: m in s && forall k :: k in s ==> m <= k
    decreases |s|
  {
    var x :| x in s;
    var rest := s - {x};
    if exists y :: y in rest {
      MinExists(rest);
      var m :| m in rest && forall k :: k in rest ==> m <= k;
      var least := if x < m then x else m;
      forall k | k in s ensures least <= k {
        if k != x {
          assert k in rest;
        }
      }
      assert least in s;
    } else {
      assert forall k :: k in s ==> k in rest || k == x;
    }
  }

  class ReplayDetector {
    var buffer: Buffer
    const bufferWindowInSeconds: int

    constructor (bufferWindowInSeconds: int)
      requires IsInt32(bufferWindowInSeconds)
      ensures buffer == map[]
      ensures this.bufferWindowInSeconds == bufferWindowInSeconds
    {
      buffer := map[];
      this.bufferWindowInSeconds := bufferWindowInSeconds;
    }

    /** `addEntry`: adds the pair, creating the bucket only for a new timestamp. */
    method AddEntry(timestamp: int, messageId: Nonce)
      modifies this
      ensures buffer == Record(old(buffer), timestamp, messageId)
    {
      if timestamp !in buffer {
        buffer := buffer[timestamp := {}];
      }
      buffer := buffer[timestamp := buffer[timestamp] + {messageId}];
    }

    /** `isValid`: rejects a message older than the window and an exact repeat,
        leaving the buffer alone; otherwise walks the keys in ascending order,
        removing each one below the cutoff and stopping at the first that is not,
        and records the pair. */
    method IsValid(timestamp: int, messageId: Nonce, now: int) returns (ok: bool)
      modifies this
      ensures (ok, buffer) == Check(old(buffer), bufferWindowInSeconds, now, timestamp, messageId)
    {
      var cutoff := Cutoff(now, bufferWindowInSeconds);
      if timestamp < cutoff {
        return false;
      }
      if timestamp in buffer && messageId in buffer[timestamp] {
        return false;
      }
      while exists t :: t in buffer
        invariant buffer.Keys <= old(buffer).Keys
        invariant forall t :: t in buffer ==> buffer[t] == old(buffer)[t]
        invariant forall t :: t in old(buffer) && t !in buffer ==> t < cutoff
        decreases |buffer.Keys|
      {
        MinExists(buffer.Keys);
        var key :| key in buffer && forall t :: t in buffer ==> key <= t;
        if key < cutoff {
          buffer := buffer - {key};
        } else {
          break;
        }
      }
      assert buffer == Evict(old(buffer), cutoff);
      AddEntry(timestamp, messageId);
      return true;
    }
  }

  // ---------------------------------------------------------------------------
  // Runs of checks

  /** One call of `isValid`: the clock reading and the pair presented. */
  datatype Call = Call(now: int, timestamp: int, messageId: Nonce)

  /** The verdicts of a sequence of calls on one detector. */
  function Verdicts(b: Buffer, windowSeconds: int, calls: seq<Call>): (r: seq<bool>)
    ensures |r| == |calls|
    decreases |calls|
  {
    if calls == [] then []
    else
      var step := Check(b, windowSeconds, calls[0].now, calls[0].timestamp, calls[0].messageId);
      [step.0] + Verdicts(step.1, windowSeconds, calls[1..])
  }

  ghost predicate ClockMonotone(calls: seq<Call>) {
    forall i, j :: 0 <= i <= j < |calls| ==> calls[i].now <= calls[j].now
  }

  /** A pair that is recorded, or already below a cutoff no later call goes under,
      is rejected by every later call while the clock does not run backwards. */
  lemma {:induction false} StaysRejected(b: Buffer, windowSeconds: int, timestamp: int, messageId: Nonce, floor: int, calls: seq<Call>)
    requires Seen(b, timestamp, messageId) || timestamp < floor
    requires ClockMonotone(calls)
    requires calls != [] ==> floor <= Cutoff(calls[0].now, windowSeconds)
    ensures forall k :: 0 <= k < |calls| && calls[k].timestamp == timestamp && calls[k].messageId == messageId ==>
              !Verdicts(b, windowSeconds, calls)[k]
    decreases |calls|
  {
    if calls != [] {
      var c := calls[0];
      var cutoff := Cutoff(c.now, windowSeconds);
      var step := Check(b, windowSeconds, c.now, c.timestamp, c.messageId);
      assert Seen(step.1, timestamp, messageId) || timestamp < cutoff;
      assert ClockMonotone(calls[1..]) by {
        forall i, j | 0 <= i <= j < |calls[1..]| ensures calls[1..][i].now <= calls[1..][j].now {
          assert calls[1..][i] == calls[i + 1] && calls[1..][j] == calls[j + 1];
        }
      }
      if |calls| > 1 {
        assert calls[1..][0] == calls[1];
      }
      StaysRejected(step.1, windowSeconds, timestamp, messageId, cutoff, calls[1..]);
      var rest := Verdicts(step.1, windowSeconds, calls[1..]);
      forall k | 0 <= k < |calls| && calls[k].timestamp == timestamp && calls[k].messageId == messageId
        ensures !Verdicts(b, windowSeconds, calls)[k]
      {
        if k > 0 {
          assert calls[1..][k - 1] == calls[k];
          assert Verdicts(b, windowSeconds, calls)[k] == rest[k - 1];
        }
      }
    }
  }

  /** The replay guarantee: while the clock does not run backwards, no
      (timestamp, id) pair is accepted twice. */
  lemma {:induction false} NeverAcceptedTwice(b: Buffer, windowSeconds: int, calls: seq<Call>, i: nat, j: nat)
    requires ClockMonotone(calls)
    requires i < j < |calls|
    requires calls[i].timestamp == calls[j].timestamp && calls[i].messageId == calls[j].messageId
    ensures !(Verdicts(b, windowSeconds, calls)[i] && Verdicts(b, windowSeconds, calls)[j])
    decreases i
  {
    var c := calls[0];
    var step := Check(b, windowSeconds, c.now, c.timestamp, c.messageId);
    var tail := calls[1..];
    assert ClockMonotone(tail) by {
      forall x, y | 0 <= x <= y < |tail| ensures tail[x].now <= tail[y].now {
        assert tail[x] == calls[x + 1] && tail[y] == calls[y + 1];
      }
    }
    assert tail[j - 1] == calls[j];
    if i == 0 {
      if step.0 {
        assert tail[0] == calls[1];
        StaysRejected(step.1, windowSeconds, c.timestamp, c.messageId, Cutoff(c.now, windowSeconds), tail);
      }
    } else {
      assert tail[i - 1] == calls[i];
      NeverAcceptedTwice(step.1, windowSeconds, tail, i - 1, j - 1);
    }
  }

  /** With a window of 2147484 to 4294967 seconds the 32-bit product wraps to a
      negative number, so the cutoff lands in the future, and a message stamped
      with the current time is rejected whatever the detector holds. */
  lemma WideWindowRejectsFreshMessage(b: Buffer, windowSeconds: int, now: int, messageId: Nonce)
    requires 2147484 <= windowSeconds <= 4294967
    ensures Cutoff(now, windowSeconds) == now - (windowSeconds * 1000 - 0x1_0000_0000)
    ensures Cutoff(now, windowSeconds) > now
    ensures !Check(b, windowSeconds, now, now, messageId).0
  {
  }
}
