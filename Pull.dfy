// agent/lib/pull.ts: sending a file or an in-memory buffer to the controller
// over a remote stream. A buffer is cut into chunks of at most CHUNK_SIZE
// bytes; each transfer announces itself with `pull:status`, opens a stream
// for the remote path, and settles once, on the first of three events.
module Pull {
  import opened Common

  const CHUNK_SIZE: nat := 130_000_000

  /** A chunk stays below 128 MiB. */
  lemma ChunkSizeBound()
    ensures 0 < CHUNK_SIZE < 0x800_0000
  {}

  function Min(a: int, b: int): int {
    if a <= b then a else b
  }

  /** The chunks `toIterator(buffer)` yields from offset `b` on. */
  function ChunksFrom(buffer: seq<byte>, b: nat): seq<seq<byte>>
    decreases |buffer| - b
  {
    if b >= |buffer| then []
    else [buffer[b..Min(b + CHUNK_SIZE, |buffer|)]] + ChunksFrom(buffer, b + CHUNK_SIZE)
  }

  /**
   * `toIterator(buffer)`: the loop `for (b = 0; b < length; b += CHUNK_SIZE)`.
   * The chunks put back together are the buffer, byte for byte.
   */
  function Chunks(buffer: seq<byte>): (cs: seq<seq<byte>>)
    ensures Concat(cs) == buffer
    ensures WellChunked(cs)
  {
    ChunksFromConcat(buffer, 0);
    ChunkSizes(buffer, 0);
    ChunksFrom(buffer, 0)
  }

  /** What the reader built from the chunks delivers, in order. */
  function Concat(chunks: seq<seq<byte>>): seq<byte> {
    if chunks == [] then [] else chunks[0] + Concat(chunks[1..])
  }

  lemma {:induction false} ChunksFromConcat(buffer: seq<byte>, b: nat)
    requires b <= |buffer|
    ensures Concat(ChunksFrom(buffer, b)) == buffer[b..]
    decreases |buffer| - b
  {
    if b < |buffer| {
      var cs := ChunksFrom(buffer, b);
      var end := Min(b + CHUNK_SIZE, |buffer|);
      assert cs[1..] == ChunksFrom(buffer, b + CHUNK_SIZE);
      if b + CHUNK_SIZE <= |buffer| {
        ChunksFromConcat(buffer, b + CHUNK_SIZE);
      } else {
        assert ChunksFrom(buffer, b + CHUNK_SIZE) == [];
      }
      assert buffer[b..] == buffer[b..end] + buffer[end..];
    }
  }

  /**
   * Every chunk holds between 1 and CHUNK_SIZE bytes, and every chunk but
   * the last holds exactly CHUNK_SIZE.
   */
  predicate WellChunked(cs: seq<seq<byte>>) {
    && (forall i :: 0 <= i < |cs| ==> 0 < |cs[i]| <= CHUNK_SIZE)
    && (forall i :: 0 <= i < |cs| - 1 ==> |cs[i]| == CHUNK_SIZE)
  }

  lemma {:induction false} ChunkSizes(buffer: seq<byte>, b: nat)
    ensures WellChunked(ChunksFrom(buffer, b))
    decreases |buffer| - b
  {
    if b < |buffer| {
      var cs := ChunksFrom(buffer, b);
      var rest := ChunksFrom(buffer, b + CHUNK_SIZE);
      var first := buffer[b..Min(b + CHUNK_SIZE, |buffer|)];
      ChunkSizes(buffer, b + CHUNK_SIZE);
      assert cs == [first] + rest;
      assert 0 < |first| <= CHUNK_SIZE;
      // a further chunk exists only when this one is full
      assert rest != [] ==> |first| == CHUNK_SIZE;
      forall i | 0 < i < |cs| ensures cs[i] == rest[i - 1] {}
    }
  }

  /** The number of chunks is the length divided by CHUNK_SIZE, rounded up. */
  lemma {:induction false} ChunkCount(buffer: seq<byte>, b: nat)
    requires b <= |buffer|
    ensures |ChunksFrom(buffer, b)| == (|buffer| - b + CHUNK_SIZE - 1) / CHUNK_SIZE
    decreases |buffer| - b
  {
    if b < |buffer| {
      if b + CHUNK_SIZE <= |buffer| {
        ChunkCount(buffer, b + CHUNK_SIZE);
        var n := |buffer| - b - CHUNK_SIZE + CHUNK_SIZE - 1;
        assert |buffer| - b + CHUNK_SIZE - 1 == n + CHUNK_SIZE;
        assert (n + CHUNK_SIZE) / CHUNK_SIZE == n / CHUNK_SIZE + 1;
      } else {
        assert ChunksFrom(buffer, b + CHUNK_SIZE) == [];
        assert CHUNK_SIZE <= |buffer| - b + CHUNK_SIZE - 1 < 2 * CHUNK_SIZE;
      }
    }
  }

  /** An empty buffer yields no chunk at all. */
  lemma EmptyBufferNoChunks()
    ensures Chunks([]) == []
  {}

  // ---------------------------------------------------------------------
  // The transfer: `#pull(reader, remotePath, mode)`

  /** The messages a transfer sends to the controller. */
  datatype PullMessage =
    | PullStatus
    | IoError(path: string, remotePath: string, error: string)

  /** What a transfer does to the outside world, in order. */
  datatype Effect =
    | Send(message: PullMessage)
    | OpenStream(remotePath: string, mode: string)
    | EndWriter
    | DestroyReader

  /** The three stream events the transfer listens for. */
  datatype StreamEvent =
    | ReaderError(message: string)
    | WriterError(message: string)
    | WriterFinish

  datatype Listener = OnReaderError | OnWriterError | OnWriterFinish

  datatype Settlement = Resolved | Rejected(message: string)

  datatype TransferState = TransferState(listeners: set<Listener>, settled: Option<Settlement>, effects: seq<Effect>)

  const ALL_LISTENERS: set<Listener> := {OnReaderError, OnWriterError, OnWriterFinish}

  /** The listener that handles an event. */
  function ListenerFor(ev: StreamEvent): Listener {
    match ev
    case ReaderError(_) => OnReaderError
    case WriterError(_) => OnWriterError
    case WriterFinish => OnWriterFinish
  }

  /** The state once `#pull` awaits: status sent, stream opened, all three listeners attached. */
  function Start(remotePath: string, mode: string): TransferState {
    TransferState(ALL_LISTENERS, None, [Send(PullStatus), OpenStream(remotePath, mode)])
  }

  /**
   * One event. A handler runs only while its listener is attached; every
   * handler first detaches all three. A reader error ends the writer and
   * rejects, and the rejection is reported as `pull:io-error`; a writer error
   * destroys the reader and resolves; finish resolves.
   */
  function Step(s: TransferState, remotePath: string, ev: StreamEvent): (r: TransferState)
    ensures s.effects <= r.effects
    ensures r != s ==> r.listeners == {} && r.settled.Some?
    ensures ListenerFor(ev) !in s.listeners ==> r == s
  {
    if ListenerFor(ev) !in s.listeners then s
    else
      match ev
      case ReaderError(message) =>
        TransferState({}, Some(Rejected(message)),
                      s.effects + [EndWriter, Send(IoError("TODO", remotePath, message))])
      case WriterError(_) =>
        TransferState({}, Some(Resolved), s.effects + [DestroyReader])
      case WriterFinish =>
        TransferState({}, Some(Resolved), s.effects)
  }

  /** A sequence of events, delivered in order. */
  function Run(s: TransferState, remotePath: string, events: seq<StreamEvent>): (r: TransferState)
    ensures s.effects <= r.effects
    ensures r.settled.None? ==> r == s
    decreases |events|
  {
    if events == [] then s else Run(Step(s, remotePath, events[0]), remotePath, events[1..])
  }

  /** Once detached, no event has any effect. */
  lemma {:induction false} DetachedIgnoresEvents(s: TransferState, remotePath: string, events: seq<StreamEvent>)
    requires s.listeners == {}
    ensures Run(s, remotePath, events) == s
    decreases |events|
  {
    if events != [] {
      DetachedIgnoresEvents(s, remotePath, events[1..]);
    }
  }

  /**
   * The transfer settles at most once: whatever follows, only the first event
   * has any effect, and it settles the transfer.
   */
  lemma {:induction false} FirstEventDecides(remotePath: string, mode: string, events: seq<StreamEvent>)
    requires events != []
    ensures Run(Start(remotePath, mode), remotePath, events) == Step(Start(remotePath, mode), remotePath, events[0])
    ensures Run(Start(remotePath, mode), remotePath, events).settled.Some?
  {
    var s := Step(Start(remotePath, mode), remotePath, events[0]);
    assert ListenerFor(events[0]) in ALL_LISTENERS;
    DetachedIgnoresEvents(s, remotePath, events[1..]);
  }

  function IoErrors(effects: seq<Effect>): (r: seq<PullMessage>)
    ensures |r| <= |effects|
  {
    if effects == [] then []
    else (if effects[0].Send? && effects[0].message.IoError? then [effects[0].message] else []) + IoErrors(effects[1..])
  }

  lemma {:induction false} IoErrorsAppend(a: seq<Effect>, b: seq<Effect>)
    ensures IoErrors(a + b) == IoErrors(a) + IoErrors(b)
    decreases |a|
  {
    if a != [] {
      var head := if a[0].Send? && a[0].message.IoError? then [a[0].message] else [];
      assert (a + b)[0] == a[0];
      assert (a + b)[1..] == a[1..] + b;
      IoErrorsAppend(a[1..], b);
      assert IoErrors(a + b) == head + IoErrors(a[1..] + b);
      assert IoErrors(a) == head + IoErrors(a[1..]);
      assert head + (IoErrors(a[1..]) + IoErrors(b)) == (head + IoErrors(a[1..])) + IoErrors(b);
    } else {
      assert a + b == b;
    }
  }

  /**
   * Exactly one `pull:io-error` is sent when the first event is a reader
   * error, carrying the literal path "TODO", the remote path and the error
   * message; a writer error or finish sends none.
   */
  lemma {:induction false} IoErrorIffReaderError(remotePath: string, mode: string, events: seq<StreamEvent>)
    ensures var sent := IoErrors(Run(Start(remotePath, mode), remotePath, events).effects);
            && (events != [] && events[0].ReaderError? ==> sent == [IoError("TODO", remotePath, events[0].message)])
            && (events == [] || !events[0].ReaderError? ==> sent == [])
  {
    var start := Start(remotePath, mode);
    assert IoErrors(start.effects) == [] by {
      assert start.effects[1..][1..] == [];
    }
    if events != [] {
      FirstEventDecides(remotePath, mode, events);
      var s := Step(start, remotePath, events[0]);
      match events[0]
      case ReaderError(message) =>
        var tail := [EndWriter, Send(IoError("TODO", remotePath, message))];
        IoErrorsAppend(start.effects, tail);
        assert tail[1..][1..] == [];
      case WriterError(_) =>
        IoErrorsAppend(start.effects, [DestroyReader]);
      case WriterFinish =>
    }
  }

  /** The running transfer, with its listeners attached to the reader and writer. */
  class Transfer {
    const remotePath: string
    var listeners: set<Listener>
    var settled: Option<Settlement>
    var effects: seq<Effect>

    function State(): TransferState
      reads this
    {
      TransferState(listeners, settled, effects)
    }

    /**
     * `#pull` up to its `await`: `pull:status` is sent before the stream for
     * the remote path is opened, then the listeners are attached.
     */
    constructor (remotePath: string, mode: string)
      ensures this.remotePath == remotePath
      ensures State() == Start(remotePath, mode)
      ensures effects[0] == Send(PullStatus) && effects[1] == OpenStream(remotePath, mode)
    {
      this.remotePath := remotePath;
      effects := [Send(PullStatus)];
      effects := effects + [OpenStream(remotePath, mode)];
      listeners := {OnReaderError, OnWriterError, OnWriterFinish};
      settled := None;
    }

    /** Remove all three listeners (`detachListeners`). */
    method DetachListeners()
      modifies this
      ensures listeners == {} && settled == old(settled) && effects == old(effects)
    {
      listeners := listeners - {OnWriterFinish};
      listeners := listeners - {OnWriterError};
      listeners := listeners - {OnReaderError};
      assert listeners == {} by {
        forall l ensures l !in listeners {
          match l
          case OnReaderError =>
          case OnWriterError =>
          case OnWriterFinish =>
        }
      }
    }

    /** One stream event reaching the transfer. */
    method Deliver(ev: StreamEvent)
      modifies this
      ensures State() == Step(old(State()), remotePath, ev)
    {
      if ListenerFor(ev) !in listeners {
        return;
      }
      match ev {
        case ReaderError(message) =>
          DetachListeners();
          effects := effects + [EndWriter];
          settled := Some(Rejected(message));
          // the `catch` around `await transfer`
          effects := effects + [Send(IoError("TODO", remotePath, message))];
        case WriterError(_) =>
          DetachListeners();
          effects := effects + [DestroyReader];
          settled := Some(Resolved);
        case WriterFinish =>
          DetachListeners();
          settled := Some(Resolved);
      }
    }
  }

  // ---------------------------------------------------------------------
  // Messages from the controller: `#onMessage`

  /** A stream packet: the JSON stanza, as text, and the optional binary data. */
  datatype Packet = Packet(stanza: string, data: Option<seq<byte>>)

  /** The agent side of the message channel: what reached the stream controller. */
  class Channel {
    var received: seq<Packet>
    var recvArmed: bool

    constructor ()
      ensures received == [] && recvArmed
    {
      received := [];
      recvArmed := true;
    }

    /**
     * `#onMessage`: the `recv` registration is used up by the message, a
     * `stream` message is forwarded with its raw data (none stays none), and
     * `recv` is registered again whatever the type.
     */
    method OnMessage(messageType: string, payload: string, rawData: Option<seq<byte>>)
      requires recvArmed
      modifies this
      ensures recvArmed
      ensures messageType == "stream" ==> received == old(received) + [Packet(payload, rawData)]
      ensures messageType != "stream" ==> received == old(received)
    {
      recvArmed := false;
      if messageType == "stream" {
        var data: Option<seq<byte>> := if rawData.Some? then Some(rawData.value) else None;
        received := received + [Packet(payload, data)];
      }
      recvArmed := true;
    }
  }
}
