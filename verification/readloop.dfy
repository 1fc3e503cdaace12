/** The background reader (`readLoop`): frames are read off the server's
    output one after another and each payload is dispatched, until the stream
    ends inside a frame or a length the runtime cannot allocate makes the
    process panic. */
module ReadLoop {
  import opened Base
  import opened Text
  import opened Framing
  import opened Correlation

  datatype Stop = StreamEnded | ReaderPanicked

  /** Drains `s` into the correlator; `parse` stands for the JSON decoding of
      a payload into its id and result. */
  function Drain(c: Correlator, s: Bytes, parse: Bytes -> Incoming): (r: (Correlator, Stop))
    requires Valid(c)
    ensures Valid(r.0) && r.0.nextId == c.nextId && |r.0.slots| == |c.slots|
    decreases |s|
  {
    match ReadFrame(s)
    case Closed => (c, StreamEnded)
    case Panicked => (c, ReaderPanicked)
    case Frame(payload, rest) => Drain(Dispatch(c, parse(payload)), rest, parse)
  }

  /** The frames of `payloads`, written one after another. */
  function EncodeAll(payloads: seq<Bytes>): Bytes
    decreases |payloads|
  {
    if |payloads| == 0 then [] else EncodeFrame(payloads[0]) + EncodeAll(payloads[1..])
  }

  function ParseAll(payloads: seq<Bytes>, parse: Bytes -> Incoming): (ms: seq<Incoming>)
    ensures |ms| == |payloads| && forall i | 0 <= i < |ms| :: ms[i] == parse(payloads[i])
    decreases |payloads|
  {
    if |payloads| == 0 then [] else [parse(payloads[0])] + ParseAll(payloads[1..], parse)
  }

  /** The reader recovers every message the server wrote, in order, and
      dispatches each exactly as if it had been handed the decoded payloads
      directly; the length is re-read for every frame, so no frame affects
      how the next is read. At the end of the output it stops quietly. */
  lemma {:induction false} DrainEncoded(c: Correlator, payloads: seq<Bytes>, parse: Bytes -> Incoming)
    requires Valid(c)
    requires forall i | 0 <= i < |payloads| :: |payloads[i]| <= MaxAlloc
    ensures Drain(c, EncodeAll(payloads), parse) == (DispatchAll(c, ParseAll(payloads, parse)), StreamEnded)
    decreases |payloads|
  {
    if |payloads| == 0 {
      assert HeaderBlock([]) == None;
    } else {
      var p := payloads[0];
      DecodeEncode(p, EncodeAll(payloads[1..]));
      DrainEncoded(Dispatch(c, parse(p)), payloads[1..], parse);
      assert ParseAll(payloads, parse)[1..] == ParseAll(payloads[1..], parse);
    }
  }
}
