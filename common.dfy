/** Shared vocabulary of the model: optional values, the exceptions the Java code
    can raise on the receive path, 32-bit integer arithmetic and the decimal
    rendering that turns the listener counter into a listener id. */
module Common {

  /** Java's nullable reference: `None` stands for `null`. */
  datatype Option<+T> = None | Some(value: T)

  /** A call that either returns a value or throws. */
  datatype Result<+T> = Success(value: T) | Failure(error: Error) {
    predicate IsFailure() {
      Failure?
    }

    function PropagateFailure<U>(): Result<U>
      requires Failure?
    {
      Failure(error)
    }

    function Extract(): T
      requires Success?
    {
      value
    }
  }

  /** The exceptions the modelled code can raise, grouped by cause. */
  datatype Error =
    | JsonParseError      // org.json.simple.parser.ParseException
    | MalformedEnvelope   // ClassCastException / NullPointerException / index error while reading an envelope
    | IndexOutOfBounds    // ArrayIndexOutOfBoundsException on the parts of a split compact string
    | ClassCast           // ClassCastException on a parsed header that is not a JSON object
    | JoseError           // JOSEException / java.text.ParseException thrown by the JWS library
    | KeyError            // a PEM text that does not parse to a key
    | DecryptError        // JOSEException thrown by JWE decryption
    | TransportError      // MqttException (or NullPointerException) from the transport's subscribe
    | ListenerError       // an exception thrown by an application listener

  // ---------------------------------------------------------------------------
  // 32-bit `int` arithmetic

  const Int32Min: int := -0x8000_0000
  const Int32Max: int := 0x7fff_ffff

  predicate IsInt32(x: int) {
    Int32Min <= x <= Int32Max
  }

  /** The value a Java `int` expression holds after two's-complement wrap-around. */
  function WrapInt32(x: int): (r: int)
    ensures IsInt32(r)
    ensures (r - x) % 0x1_0000_0000 == 0
    ensures IsInt32(x) ==> r == x
  {
    (x - Int32Min) % 0x1_0000_0000 + Int32Min
  }

  // ---------------------------------------------------------------------------
  // Decimal rendering: `listenerCounter + ""`

  function DigitChar(d: nat): (c: char)
    requires d < 10
    ensures '0' <= c <= '9'
  {
    "0123456789"[d]
  }

  /** The decimal text of a non-negative number, as Java's string concatenation writes it. */
  function NatToString(n: nat): (s: string)
    ensures |s| >= 1
    ensures forall i :: 0 <= i < |s| ==> '0' <= s[i] <= '9'
    ensures n < 10 <==> |s| == 1
  {
    if n < 10 then [DigitChar(n)] else NatToString(n / 10) + [DigitChar(n % 10)]
  }

  function DigitValue(c: char): (d: nat)
    requires '0' <= c <= '9'
    ensures d < 10
  {
    (c as int - '0' as int) as nat
  }

  /** Reads decimal digits back into a number. */
  function DecimalValue(s: string): (n: nat)
    requires forall i :: 0 <= i < |s| ==> '0' <= s[i] <= '9'
  {
    if s == [] then 0 else DecimalValue(s[..|s| - 1]) * 10 + DigitValue(s[|s| - 1])
  }

  /** Reading the decimal text back gives the number. */
  lemma {:induction false} NatToStringRoundTrip(n: nat)
    ensures DecimalValue(NatToString(n)) == n
  {
    var s := NatToString(n);
    if n < 10 {
      assert s[..0] == [];
    } else {
      var prefix := NatToString(n / 10);
      assert s == prefix + [DigitChar(n % 10)];
      assert s[..|s| - 1] == prefix;
      NatToStringRoundTrip(n / 10);
    }
  }

  /** Different counter values give different listener ids. */
  lemma NatToStringInjective(a: nat, b: nat)
    requires NatToString(a) == NatToString(b)
    ensures a == b
  {
    NatToStringRoundTrip(a);
    NatToStringRoundTrip(b);
  }
}
