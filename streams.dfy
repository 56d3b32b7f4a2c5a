/** The `Streams` facade the QML side calls to list streams and read their
  * messages. The stream manager itself (`core.stream`) is not part of this
  * model: its stream list, its name-to-stream dictionary, what
  * `add_initial_streams()` seeds and what `refresh()` fetches are inputs. */
module Streams {

  /** The dictionary a stream's data object converts to. */
  type StreamData = map<string, string>

  /** The parts of a message the GUI reads. */
  datatype Message = Message(fullText: string, screenName: string)

  datatype Stream = Stream(data: StreamData, messages: seq<Message>)

  /** The dictionary handed to QML for one message. */
  datatype MessageView = MessageView(text: string, username: string)

  function ViewOf(m: Message): MessageView {
    MessageView(m.fullText, m.screenName)
  }

  /** `get_stream_list`: an empty list is first seeded with the initial streams
    * (`seeded` tells whether that happened); then every stream is converted to
    * a copy of its data dictionary, in list order. */
  method GetStreamList(streamList: seq<Stream>, initialStreams: seq<Stream>)
    returns (dicts: seq<StreamData>, seeded: bool)
    ensures seeded <==> streamList == []
    ensures var listed := if seeded then initialStreams else streamList;
            |dicts| == |listed| && forall i :: 0 <= i < |listed| ==> dicts[i] == listed[i].data
  {
    var listed := streamList;
    seeded := false;
    if listed == [] {
      seeded := true;
      listed := initialStreams;
    }
    dicts := [];
    var i := 0;
    while i < |listed|
      invariant 0 <= i <= |listed|
      invariant |dicts| == i
      invariant forall k :: 0 <= k < i ==> dicts[k] == listed[k].data
    {
      dicts := dicts + [listed[i].data];
      i := i + 1;
    }
  }

  /** `get_stream_messages`: an unknown stream name yields the empty list;
    * otherwise the stream is refreshed if asked to (`refreshed` gives its
    * messages after `refresh()`), and every message is converted to its view,
    * in order. */
  method GetStreamMessages(streams: map<string, Stream>, name: string, refresh: bool,
                           refreshed: Stream -> seq<Message>)
    returns (views: seq<MessageView>)
    ensures name !in streams ==> views == []
    ensures name in streams ==>
              var messages := if refresh then refreshed(streams[name]) else streams[name].messages;
              |views| == |messages| && forall i :: 0 <= i < |messages| ==> views[i] == ViewOf(messages[i])
  {
    if name !in streams {
      return [];
    }
    var stream := streams[name];
    var messages := stream.messages;
    if refresh {
      messages := refreshed(stream);
    }
    views := [];
    var i := 0;
    while i < |messages|
      invariant 0 <= i <= |messages|
      invariant |views| == i
      invariant forall k :: 0 <= k < i ==> views[k] == ViewOf(messages[k])
    {
      views := views + [ViewOf(messages[i])];
      i := i + 1;
    }
  }
}
