/** A client connection: the daemon's task that turns a byte stream into events, and a whole
    exchange between a sender and a receiver. */
module Connection {
  import opened ByteStrings
  import opened Readers
  import opened Wire
  import opened Receiving
  import Sending

  datatype Event = Push(path: StorePath) | Stop(writer: nat) | ReceiveFailed(error: ReceiveError)

  /** The unbounded channel into the event loop. */
  class Channel {
    var queue: seq<Event>

    constructor ()
      ensures queue == []
    {
      queue := [];
    }
  }

  function ToEvent(item: Item, writer: nat): (e: Event)
  {
    match item
    case Ok(PushStorePath(path)) => Push(path)
    case Ok(StopDaemon) => Stop(writer)
    case Err(error) => ReceiveFailed(error)
  }

  function ToEvents(items: seq<Item>, writer: nat): (es: seq<Event>)
    ensures |es| == |items|
    ensures forall i :: 0 <= i < |items| ==>
              match items[i]
              case Ok(PushStorePath(path)) => es[i] == Push(path)
              case Ok(StopDaemon) => es[i] == Stop(writer)
              case Err(error) => es[i] == ReceiveFailed(error)
  {
    if items == [] then [] else [ToEvent(items[0], writer)] + ToEvents(items[1..], writer)
  }

  lemma ToEventsCons(item: Item, items: seq<Item>, writer: nat)
    ensures ToEvents([item] + items, writer) == [ToEvent(item, writer)] + ToEvents(items, writer)
  {
    assert ([item] + items)[1..] == items;
  }

  /** A connection contributes pushes, then at most one stop or error, then nothing. */
  lemma {:induction false} ConnectionShape(c: Codec, bs: Bytes, fails: bool, writer: nat)
    ensures var es := ToEvents(Decode(c, bs, fails), writer);
            forall i :: 0 <= i < |es| - 1 ==> es[i].Push?
  {
    DecodeShape(c, bs, fails);
  }

  /** Polls until the stream ends.  The items are those of the simple decoder on all the bytes,
      wherever the reader was not ready and however it split them. */
  method Collect(receiver: Receiver) returns (items: seq<Item>)
    requires receiver.Valid()
    modifies receiver`isDone, receiver`start, receiver`end, receiver`unhandled, receiver.buf,
             receiver.source`rest, receiver.source`pace
    ensures receiver.Valid()
    ensures items == old(receiver.Outlook())
  {
    items := [];
    ghost var outlook := receiver.Outlook();
    ghost var all := outlook;
    while true
      invariant receiver.Valid() && outlook == receiver.Outlook()
      invariant items + outlook == all
      decreases |outlook|
    {
      var item := receiver.AwaitNext();
      if item.None? {
        return;
      }
      outlook := receiver.Outlook();
      Shift(items, item.value, outlook);
      items := items + [item.value];
    }
  }

  /** The task spawned for an accepted connection: it forwards every item as an event and returns
      after a stop or at the end of the stream. */
  method HandleIo(receiver: Receiver, writer: nat, channel: Channel)
    requires receiver.Valid()
    modifies receiver`isDone, receiver`start, receiver`end, receiver`unhandled, receiver.buf,
             receiver.source`rest, receiver.source`pace, channel
    ensures channel.queue == old(channel.queue) + ToEvents(old(receiver.Outlook()), writer)
  {
    ghost var outlook := receiver.Outlook();
    ghost var goal := channel.queue + ToEvents(outlook, writer);
    while true
      invariant receiver.Valid() && outlook == receiver.Outlook()
      invariant channel.queue + ToEvents(outlook, writer) == goal
      decreases |outlook|
    {
      var item := receiver.AwaitNext();
      if item.None? {
        return;
      }
      outlook := receiver.Outlook();
      ToEventsCons(item.value, outlook, writer);
      Shift(channel.queue, ToEvent(item.value, writer), ToEvents(outlook, writer));
      channel.queue := channel.queue + [ToEvent(item.value, writer)];
      if item.value == Ok(StopDaemon) {
        return;
      }
    }
  }

  /** The client: feed all messages, then close however often the writer makes it necessary.  It fails
      only if the writer fails or takes nothing. */
  method Transmit(c: Codec, messages: seq<Message>, moods: seq<Sending.WriterMood>)
    returns (r: Result<Bytes, Sending.WriteError>)
    ensures r.Ok? ==> r.value == EncodeAll(c, messages)
    ensures Sending.Willing(moods) ==> r.Ok?
  {
    var sink := new Sending.ByteSink(moods);
    var sender := new Sending.Sender(c, sink);
    for i := 0 to |messages|
      invariant sender.Valid() && sender.sent == messages[..i] && sink.moods == moods
    {
      sender.StartSend(messages[i]);
      TakeNext(messages, i);
    }
    assert messages[..|messages|] == messages;
    var closed := sender.Close();
    return if closed.Err? then Err(closed.error) else Ok(sink.accepted);
  }

  /** A whole exchange.  Unless the writer fails or takes nothing, the receiver gets the messages up to
      and including the first stop, under any write and any read segmentation. */
  method Exchange(c: Codec, messages: seq<Message>, moods: seq<Sending.WriterMood>, pace: seq<Pace>)
    returns (r: Result<seq<Item>, Sending.WriteError>)
    requires AllSendable(c, UpToStop(messages))
    ensures r.Ok? ==> r.value == Received(UpToStop(messages))
    ensures Sending.Willing(moods) ==> r.Ok?
  {
    var sent := Transmit(c, messages, moods);
    if sent.Err? {
      return Err(sent.error);
    }
    var source := new ByteSource(sent.value, false, pace);
    var receiver := new Receiver(c, source);
    var items := Collect(receiver);
    RoundTrip(c, messages);
    return Ok(items);
  }
}
