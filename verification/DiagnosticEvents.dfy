/** An event as it is recorded, and the six words it is stored in. */
module DiagnosticEvents {
  type U16 = n: nat | n < 0x1_0000
  type U32 = n: nat | n < 0x1_0000_0000
  type U64 = n: nat | n < 0x1_0000_0000_0000_0000
  type S64 = n: int | -0x8000_0000_0000_0000 <= n < 0x8000_0000_0000_0000

  const WORDS := 6

  type Words = w: seq<U64> | |w| == WORDS witness [0, 0, 0, 0, 0, 0]

  datatype Event = Event(
    sequence: nat, hostTimeNs: S64, thread: U32, kind: U16, objectId: U64,
    guestAddress: U32, value: U32, source: U64, guestCaller: U32)

  function Pack(low: U32, high: U32): U64 {
    low + high * 0x1_0000_0000
  }

  function Low(word: U64): U32 {
    word % 0x1_0000_0000
  }

  function High(word: U64): U32 {
    word / 0x1_0000_0000
  }

  function ToUnsigned(n: S64): U64 {
    if n < 0 then n + 0x1_0000_0000_0000_0000 else n
  }

  function ToSigned(n: U64): S64 {
    if n < 0x8000_0000_0000_0000 then n else n - 0x1_0000_0000_0000_0000
  }

  /** The six words a writer stores for an event. */
  function Encode(e: Event): Words {
    [ToUnsigned(e.hostTimeNs), Pack(e.thread, e.kind), e.objectId,
     Pack(e.guestAddress, e.value), e.source, e.guestCaller]
  }

  /** The event a reader rebuilds from six words. */
  function Decode(sequence: nat, w: Words): Event {
    Event(sequence, ToSigned(w[0]), Low(w[1]), High(w[1]) % 0x1_0000, w[2],
          Low(w[3]), High(w[3]), w[4], Low(w[5]))
  }

  /** What a reader decodes from a complete slot is the recorded event. */
  lemma DecodeEncode(e: Event)
    ensures Decode(e.sequence, Encode(e)) == e
  {
  }
}
