/** The snapshot stream: length-prefixed messages, one for each live key, in any order. */
module Snapshots {
  import opened ByteStrings
  import opened Entries
  import opened Store
  import opened EngineState
  import Machine

  /** A decoded command of the replicated log. */
  datatype Command = PutCommand(key: Bytes, value: Value) | DeleteCommand(key: Bytes) | UnknownCommand

  /** Marshalling and unmarshalling of the messages; each may fail. */
  datatype Codec = Codec(
    command: Bytes -> Option<Command>,
    marshal: Entry<Bytes> -> Option<Bytes>,
    unmarshal: Bytes -> Option<Entry<Value>>)

  /** An empty bytes field is decoded to nil. */
  function FieldValue(bytes: Bytes): (v: Value)
    ensures Payload(v) == bytes && (v == Nil <==> bytes == [])
  {
    if bytes == [] then Nil else Data(bytes)
  }

  ghost predicate Faithful(codec: Codec) {
    && (forall e :: codec.marshal(e).Some? ==> codec.unmarshal(codec.marshal(e).value) == Some(Entry(e.key, FieldValue(e.val))))
    && (forall data :: codec.unmarshal(data).Some? ==> Machine.CleanValue(codec.unmarshal(data).value.val))
    && (forall data :: codec.command(data).Some? && codec.command(data).value.PutCommand? ==> Machine.CleanValue(codec.command(data).value.value))
  }

  // ---------- the stream ----------

  function Frame(data: Bytes): Bytes {
    U32Bytes(|data|) + data
  }

  function StreamOf(messages: seq<Bytes>): Bytes {
    if messages == [] then [] else Frame(messages[0]) + StreamOf(messages[1..])
  }

  /** What Restore reads from a position on, for any bytes: the entries it decodes, and
      whether it reaches the end of the stream without an error. */
  function ReadStream(codec: Codec, stream: Bytes, pos: nat): (seq<Entry<Value>>, bool)
    decreases |stream| - pos
  {
    match ReadU32(stream, pos)
    case Eof => ([], true)
    case UnexpectedEof => ([], false)
    case Got(length) =>
      (match ReadFull(stream, pos + 4, length)
       case Got(data) =>
         (match codec.unmarshal(data)
          case Some(e) => var (es, ok) := ReadStream(codec, stream, pos + 4 + length); ([e] + es, ok)
          case None => ([], false))
       case _ => ([], false))
  }

  /** What one round of the loop of Restore makes of length, payload and message. */
  lemma ReadRound(codec: Codec, stream: Bytes, pos: nat)
    ensures match ReadU32(stream, pos)
      case Eof => ReadStream(codec, stream, pos) == ([], true)
      case UnexpectedEof => ReadStream(codec, stream, pos) == ([], false)
      case Got(length) =>
        match ReadFull(stream, pos + 4, length)
        case Eof => ReadStream(codec, stream, pos) == ([], false)
        case UnexpectedEof => ReadStream(codec, stream, pos) == ([], false)
        case Got(data) =>
          var next, entry := pos + 4 + length, codec.unmarshal(data);
          && next <= |stream|
          && ReadStream(codec, stream, pos) ==
               if entry.None? then ([], false)
               else ([entry.value] + ReadStream(codec, stream, next).0, ReadStream(codec, stream, next).1)
  {
  }

  lemma {:induction false} StreamAppend(messages: seq<Bytes>, data: Bytes)
    ensures StreamOf(messages + [data]) == StreamOf(messages) + Frame(data)
  {
    if messages == [] {
      assert [data][1..] == [] && [] + [data] == [data];
    } else {
      assert (messages + [data])[1..] == messages[1..] + [data];
      StreamAppend(messages[1..], data);
    }
  }

  ghost predicate MessagesOf(codec: Codec, messages: seq<Bytes>, es: seq<Entry<Value>>) {
    && |messages| == |es|
    && forall i :: 0 <= i < |es| ==> |messages[i]| < TWO32 && codec.unmarshal(messages[i]) == Some(es[i])
  }

  lemma HoldsAt(stream: Bytes, pos: nat, x: Bytes, rest: Bytes)
    requires pos <= |stream| && stream[pos..] == x + rest
    ensures Holds(stream, pos, x)
  {
    assert stream[pos..][..|x|] == x;
  }

  lemma NothingToRead(codec: Codec, stream: Bytes, pos: nat)
    requires pos >= |stream|
    ensures ReadStream(codec, stream, pos) == ([], true)
  {
  }

  /** Reading a stream that starts at pos, wherever it lies. */
  lemma {:induction false} ReadWritten(codec: Codec, messages: seq<Bytes>, es: seq<Entry<Value>>, stream: Bytes, pos: nat)
    requires MessagesOf(codec, messages, es)
    requires pos <= |stream| && stream[pos..] == StreamOf(messages)
    ensures ReadStream(codec, stream, pos) == (es, true)
    decreases |messages|
  {
    hide U32Bytes, ReadU32, ReadFull, Holds;
    if messages == [] {
      NothingToRead(codec, stream, pos);
    } else {
      var data, n := messages[0], |messages[0]|;
      var tail := StreamOf(messages[1..]);
      assert stream[pos..] == U32Bytes(n) + data + tail;
      HoldsAt(stream, pos, U32Bytes(n) + data, tail);
      HoldsParts(stream, pos, U32Bytes(n), data);
      ReadHeldU32(stream, pos, n);
      ReadHeld(stream, pos + 4, data);
      assert stream[pos + 4 + n..] == stream[pos..][4 + n..] == tail;
      ReadWritten(codec, messages[1..], es[1..], stream, pos + 4 + n);
      assert [es[0]] + es[1..] == es;
    }
  }

  /** The stream of a list of messages is read back as their entries. */
  lemma StreamRoundTrip(codec: Codec, messages: seq<Bytes>, es: seq<Entry<Value>>)
    requires MessagesOf(codec, messages, es)
    ensures ReadStream(codec, StreamOf(messages), 0) == (es, true)
  {
    assert StreamOf(messages)[0..] == StreamOf(messages);
    ReadWritten(codec, messages, es, StreamOf(messages), 0);
  }

  // ---------- writing it ----------

  function Restored(es: seq<Entry<Bytes>>): (r: seq<Entry<Value>>)
    ensures |r| == |es| && forall i :: 0 <= i < |es| ==> r[i] == Entry(es[i].key, FieldValue(es[i].val))
  {
    seq(|es|, i requires 0 <= i < |es| => Entry(es[i].key, FieldValue(es[i].val)))
  }

  /** No message is too long for its length prefix. */
  ghost predicate MessagesFit(codec: Codec, state: Table) {
    forall k :: k in state && codec.marshal(Entry(k, state[k])).Some? ==> |codec.marshal(Entry(k, state[k])).value| < TWO32
  }

  /** The stream holds the keys of the state, each once and in some order. */
  ghost predicate IsSnapshot(codec: Codec, state: Table, stream: Bytes) {
    exists es: seq<Entry<Bytes>> :: |es| == |state| && ToMap(es) == state && ReadStream(codec, stream, 0) == (Restored(es), true)
  }

  lemma OneLess(rest: Table, k: Bytes)
    requires k in rest
    ensures |rest - {k}| == |rest| - 1
  {
    assert (rest - {k}).Keys == rest.Keys - {k};
    assert |(rest - {k}).Keys| == |rest - {k}| && |rest.Keys| == |rest|;
  }

  /** One key written. */
  lemma OneMoreMessage(codec: Codec, state: Table, rest: Table, k: Bytes, es: seq<Entry<Bytes>>, messages: seq<Bytes>)
    requires k in rest && Unvisited(rest, state) && ToMap(es) == Visited(state, rest)
    requires Faithful(codec) && MessagesFit(codec, state) && MessagesOf(codec, messages, Restored(es))
    requires codec.marshal(Entry(k, rest[k])).Some?
    ensures var data := codec.marshal(Entry(k, rest[k])).value; var es' := es + [Entry(k, rest[k])];
      && MessagesOf(codec, messages + [data], Restored(es'))
      && StreamOf(messages + [data]) == StreamOf(messages) + Frame(data)
      && ToMap(es') == Visited(state, rest - {k}) && Unvisited(rest - {k}, state) && |rest - {k}| == |rest| - 1
  {
    hide Unvisited, Visited, StreamOf;
    OneMoreKey(state, rest, k);
    OneLess(rest, k);
    var data := codec.marshal(Entry(k, rest[k])).value;
    StreamAppend(messages, data);
    assert (es + [Entry(k, rest[k])])[..|es|] == es;
  }

  /** Persist: writes the state in any order of its keys. It fails only when some entry cannot
      be marshalled. */
  method Persist(codec: Codec, state: Table) returns (stream: Bytes, ok: bool)
    requires Faithful(codec) && MessagesFit(codec, state)
    ensures ok ==> IsSnapshot(codec, state, stream)
    ensures !ok ==> exists k :: k in state && codec.marshal(Entry(k, state[k])).None?
  {
    hide Unvisited, Visited, StreamOf, ToMap, Faithful, MessagesFit, MessagesOf, ReadStream;
    stream := [];
    ghost var es, messages: seq<Bytes> := [], [];
    NothingWritten(codec, state);
    var rest := state;
    while rest != map[]
      invariant Unvisited(rest, state) && ToMap(es) == Visited(state, rest) && |es| + |rest| == |state|
      invariant MessagesOf(codec, messages, Restored(es)) && stream == StreamOf(messages)
      decreases |rest|
    {
      var k :| k in rest;
      OneMoreKey(state, rest, k);
      var data := codec.marshal(Entry(k, rest[k]));
      if data.None? {
        return stream, false;
      }
      OneMoreMessage(codec, state, rest, k, es, messages);
      stream := stream + (U32Bytes(|data.value|) + data.value);
      es, messages := es + [Entry(k, rest[k])], messages + [data.value];
      rest := rest - {k};
    }
    StreamRoundTrip(codec, messages, Restored(es));
    return stream, true;
  }

  lemma NothingWritten(codec: Codec, state: Table)
    ensures Unvisited(state, state) && Visited(state, state) == ToMap([]) && Visited(state, map[]) == state
    ensures MessagesOf(codec, [], Restored([])) && StreamOf([]) == []
  {
    AllKeys(state);
  }
}
