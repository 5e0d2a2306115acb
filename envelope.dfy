/** The message envelope of gonet.go: the Message value, its JSON export,
    the zero-padding trim of decodeMessage and the fixed-length receive
    buffer that Listen fills. */
module Envelope {
  import opened Wrappers

  newtype byte = b: int | 0 <= b < 256

  /** What ends the process anywhere in the package. The registry's
      UnknownCommand is declared here beside the decode and receive failures
      so that one Result type carries a message from the receive buffer
      through decoding to its trigger's output. */
  datatype Error =
    | UnknownCommand(cmd: string)   // lookupTriggers: "Command does not exist"
    | MalformedEnvelope             // decodeMessage: json.Unmarshal failed
    | BufferLengthOutOfRange        // Listen: make([]byte, Length) with Length < 0

  datatype Message = Message(cmd: string, data: seq<byte>)

  /** NewMessage: the message carrying exactly the given command and data. */
  function NewMessage(cmd: string, data: seq<byte>): (m: Message)
    ensures m.cmd == cmd && m.data == data
  {
    Message(cmd, data)
  }

  function Min(a: int, b: int): (m: int)
    ensures m <= a && m <= b && (m == a || m == b)
  {
    if a <= b then a else b
  }

  ghost predicate AllZero(s: seq<byte>)
  {
    forall i :: 0 <= i < |s| ==> s[i] == 0
  }

  /** s[lo..hi] holds only 0x00. */
  ghost predicate ZerosBetween(s: seq<byte>, lo: nat, hi: nat)
    requires lo <= hi <= |s|
  {
    forall k :: lo <= k < hi ==> s[k] == 0
  }

  /** No 0x00 at either end of s. */
  ghost predicate Unpadded(s: seq<byte>)
  {
    s == [] || (s[0] != 0 && s[|s| - 1] != 0)
  }

  function Zeros(n: nat): (z: seq<byte>)
    ensures |z| == n && AllZero(z)
  {
    seq(n, _ => 0)
  }

  // ---------------------------------------------------------------------
  // bytes.Trim(data, "\x00"): Go trims the right end first, then the left.

  /** Where the kept bytes end once the trailing 0x00 bytes of s[..stop] are
      dropped. */
  function TrimRightEnd(s: seq<byte>, stop: nat): (end: nat)
    requires stop <= |s|
    ensures end <= stop
    ensures ZerosBetween(s, end, stop)
    ensures end > 0 ==> s[end - 1] != 0
  {
    if stop > 0 && s[stop - 1] == 0 then TrimRightEnd(s, stop - 1) else stop
  }

  /** Where the kept bytes begin once the leading 0x00 bytes of s[start..stop]
      are dropped. */
  function TrimLeftStart(s: seq<byte>, start: nat, stop: nat): (begin: nat)
    requires start <= stop <= |s|
    ensures start <= begin <= stop
    ensures ZerosBetween(s, start, begin)
    ensures begin < stop ==> s[begin] != 0
    decreases stop - start
  {
    if start < stop && s[start] == 0 then TrimLeftStart(s, start + 1, stop) else start
  }

  /** The bytes.Trim(data, "\x00") of decodeMessage: the right end is trimmed
      first, then the left; both ends, not only the tail. */
  function TrimZeros(s: seq<byte>): (r: seq<byte>)
    ensures |r| <= |s|
    ensures Unpadded(r)
  {
    var stop := TrimRightEnd(s, |s|);
    var start := TrimLeftStart(s, 0, stop);
    s[start..stop]
  }

  /** The trim is pinned down by its border conditions: the slice s[i..j]
      with only zeros outside it and no zero at either of its ends is the
      trim of s. */
  lemma {:induction false} TrimZerosUnique(s: seq<byte>, i: nat, j: nat)
    requires i <= j <= |s|
    requires ZerosBetween(s, 0, i) && ZerosBetween(s, j, |s|)
    requires i < j ==> s[i] != 0 && s[j - 1] != 0
    ensures TrimZeros(s) == s[i..j]
  {
  }

  /** The trim returns a slice with only zeros cut off on either side. */
  lemma {:induction false} TrimZerosSlice(s: seq<byte>) returns (i: nat, j: nat)
    ensures i <= j <= |s|
    ensures TrimZeros(s) == s[i..j]
    ensures ZerosBetween(s, 0, i) && ZerosBetween(s, j, |s|)
  {
    j := TrimRightEnd(s, |s|);
    i := TrimLeftStart(s, 0, j);
  }

  /** The trim as the index scan Go performs; the result is the sub-slice
      s[start..stop] of the input, so it shares the receive buffer. */
  method TrimSlice(s: seq<byte>) returns (start: nat, stop: nat)
    ensures start <= stop <= |s|
    ensures s[start..stop] == TrimZeros(s)
    ensures ZerosBetween(s, 0, start) && ZerosBetween(s, stop, |s|)
  {
    stop := |s|;
    while stop > 0 && s[stop - 1] == 0
      invariant stop <= |s|
      invariant ZerosBetween(s, stop, |s|)
    {
      stop := stop - 1;
    }
    start := 0;
    while start < stop && s[start] == 0
      invariant start <= stop
      invariant ZerosBetween(s, 0, start)
    {
      start := start + 1;
    }
    TrimZerosUnique(s, start, stop);
  }

  /** Trimming twice is trimming once. */
  lemma {:induction false} TrimZerosIdempotent(s: seq<byte>)
    ensures TrimZeros(TrimZeros(s)) == TrimZeros(s)
  {
  }

  /** Bytes with no zero at either end are left as they are. */
  lemma {:induction false} TrimZerosOfUnpadded(s: seq<byte>)
    ensures Unpadded(s) ==> TrimZeros(s) == s
  {
  }

  /** An envelope e at offset a of s, with only zeros around it, trims to
      what e trims to. */
  lemma {:induction false} TrimZerosEmbedded(s: seq<byte>, e: seq<byte>, a: nat)
    requires a + |e| <= |s|
    requires ZerosBetween(s, 0, a) && ZerosBetween(s, a + |e|, |s|)
    requires s[a..a + |e|] == e
    ensures TrimZeros(s) == TrimZeros(e)
  {
  }

  /** Zero padding on either side does not change the trim. */
  lemma {:induction false} TrimZerosPadded(e: seq<byte>, a: nat, b: nat)
    ensures TrimZeros(Zeros(a) + e + Zeros(b)) == TrimZeros(e)
  {
    var s := Zeros(a) + e + Zeros(b);
    assert s[a..a + |e|] == e;
    TrimZerosEmbedded(s, e, a);
  }

  // ---------------------------------------------------------------------
  // encoding/json, seen only through the two operations the code calls.

  /** json.Marshal and json.Unmarshal for Message; unmarshal gives None
      where Go returns an error. */
  datatype Json = Json(marshal: Message -> seq<byte>, unmarshal: seq<byte> -> Option<Message>)

  /** Unmarshal undoes Marshal. */
  ghost predicate RoundTrips(json: Json)
  {
    forall m :: json.unmarshal(json.marshal(m)) == Some(m)
  }

  /** A marshalled object is non-empty and starts with '{' and ends with '}',
      so neither end is 0x00. */
  ghost predicate Framed(json: Json)
  {
    forall m :: json.marshal(m) != [] && Unpadded(json.marshal(m))
  }

  ghost predicate WellBehaved(json: Json)
  {
    RoundTrips(json) && Framed(json)
  }

  /** JSON text escapes control characters, so 0x00 never appears in it. */
  ghost predicate NoZeroBytes(json: Json)
  {
    forall m, k :: 0 <= k < |json.marshal(m)| ==> json.marshal(m)[k] != 0
  }

  /** A proper prefix of an object's text (the empty one included) is not
      valid JSON. */
  ghost predicate RejectsPrefixes(json: Json)
  {
    forall m, k :: 0 <= k < |json.marshal(m)| ==> json.unmarshal(json.marshal(m)[..k]) == None
  }

  /** decodeMessage: trim the zero padding, then unmarshal; a failed
      unmarshal ends the process in Go. */
  function Decode(json: Json, data: seq<byte>): (r: Result<Message, Error>)
    ensures r.Failure? ==> r.error == MalformedEnvelope
    ensures r.Success? <==> json.unmarshal(TrimZeros(data)).Some?
    ensures r.Success? ==> json.unmarshal(TrimZeros(data)) == Some(r.value)
  {
    match json.unmarshal(TrimZeros(data))
    case Some(m) => Success(m)
    case None => Failure(MalformedEnvelope)
  }

  /** Message.Export: the JSON text of the message, which decodes back to it. */
  function Export(json: Json, m: Message): (envelope: seq<byte>)
    ensures WellBehaved(json) ==> envelope != [] && Unpadded(envelope)
    ensures WellBehaved(json) ==> Decode(json, envelope) == Success(m)
  {
    var envelope := json.marshal(m);
    TrimZerosOfUnpadded(envelope);
    envelope
  }

  /** Decoding ignores any number of zero bytes before and after the envelope. */
  lemma {:induction false} DecodePadded(json: Json, e: seq<byte>, a: nat, b: nat)
    ensures Decode(json, Zeros(a) + e + Zeros(b)) == Decode(json, e)
  {
    TrimZerosPadded(e, a, b);
  }

  // ---------------------------------------------------------------------
  // The receive buffer of Listen.

  /** make([]byte, length) followed by one Read of the incoming bytes: the
      first min(|incoming|, length) bytes, then the buffer's zero fill. */
  function ReceiveBuffer(incoming: seq<byte>, length: int): (r: Result<seq<byte>, Error>)
    ensures r.Failure? <==> length < 0
    ensures r.Failure? ==> r.error == BufferLengthOutOfRange
    ensures r.Success? ==> |r.value| == length
    ensures r.Success? && |incoming| <= length ==> r.value == incoming + Zeros(length - |incoming|)
    ensures r.Success? && |incoming| > length ==> r.value == incoming[..length]
  {
    if length < 0 then Failure(BufferLengthOutOfRange)
    else
      var n := Min(|incoming|, length);
      Success(incoming[..n] + Zeros(length - n))
  }
}
