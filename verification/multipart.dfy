/**
 * A multipart request body as the handler sees it once the framework has
 * parsed it: a single-pass sequence of items, each a part or a transport
 * failure that ends the stream.
 */
module Multipart {
  import opened Base

  /** One read from a part's body stream: some bytes, or a read failure. */
  datatype Chunk = Data(bytes: seq<byte>) | ReadFailure

  /**
   * One part: its field name and declared file name (either may be absent),
   * the outcome of reading its body as text with `Field::text` (`None` when
   * that fails),
   * and its body as a stream of chunks.
   */
  datatype Part = Part(name: Option<string>, fileName: Option<string>, text: Option<string>, body: seq<Chunk>)

  /** What `next_field` yields while the stream lasts: a part, or an error with its message. */
  datatype Item = Field(part: Part) | TransportError(message: string)

  /** A body stream that delivers all its chunks without a read failure. */
  predicate Intact(body: seq<Chunk>)
  {
    forall i :: 0 <= i < |body| ==> body[i].Data?
  }

  /** The bytes a body stream delivers, in order. */
  function Concat(body: seq<Chunk>): seq<byte>
  {
    if |body| == 0 then []
    else (if body[0].Data? then body[0].bytes else []) + Concat(body[1..])
  }

  /** A body read chunk by chunk: its bytes are the first chunk's followed by the rest's. */
  lemma ConcatCons(body: seq<Chunk>)
    requires |body| > 0
    ensures Concat(body) == (if body[0].Data? then body[0].bytes else []) + Concat(body[1..])
    ensures Intact(body) <==> body[0].Data? && Intact(body[1..])
  {
    if body[0].Data? && Intact(body[1..]) {
      forall i | 0 <= i < |body| ensures body[i].Data? {
        if i > 0 {
          assert body[i] == body[1..][i - 1];
        }
      }
    }
  }
}
