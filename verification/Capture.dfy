// What a history of events leaves behind, told from the switches and the events
// alone: the streams, the archive, and the cancelled subscriptions.

module Capture {
  import opened Sync

  /** How many of the first k events brought the item a message of this type. */
  function CountOf(events: seq<(string, ItemEvent)>, k: nat, item: string, t: MessageType): nat
    requires k <= |events|
  {
    if k == 0 then 0
    else
      CountOf(events, k - 1, item, t) + if events[k - 1].0 == item && events[k - 1].1.messageType == t then 1 else 0
  }

  /** One of the first k events closed the stream of the item. */
  predicate ClosedBy(events: seq<(string, ItemEvent)>, k: nat, item: string)
    requires k <= |events|
  {
    exists j :: 0 <= j < k && events[j].0 == item && events[j].1.closed
  }

  /** The first image of a stream, or one that a 32-bit count of images takes for it. */
  predicate IsFirstImage(events: seq<(string, ItemEvent)>, k: nat)
    requires k < |events|
  {
    events[k].1.messageType == Image && CountOf(events, k, events[k].0, Image) % UINT32 == 0
  }

  /** The messages worth keeping: images, the first of a stream only with refreshes
      enabled, updates unless disabled, corrections, renames and unknown types. */
  predicate Wanted(c: Config, events: seq<(string, ItemEvent)>, k: nat)
    requires k < |events|
  {
    var t := events[k].1.messageType;
    || (t == Image && !(c.disableRefresh && IsFirstImage(events, k)))
    || (t == Update && !c.disableUpdate)
    || t == Correction || t == Rename || t == Other
  }

  /** The wanted messages in marketfeed format, in order, if there is an output. */
  function Recording(c: Config, events: seq<(string, ItemEvent)>, k: nat): seq<Message>
    requires k <= |events|
  {
    if k == 0 || !c.archiving then []
    else
      Recording(c, events, k - 1)
      + if events[k - 1].1.marketfeed && Wanted(c, events, k - 1)
        then [Message(events[k - 1].0, events[k - 1].1.messageType)] else []
  }

  /** How many wanted messages of the item came in a format that is not supported. */
  function Unsupported(c: Config, events: seq<(string, ItemEvent)>, k: nat, item: string): nat
    requires k <= |events|
  {
    if k == 0 then 0
    else
      Unsupported(c, events, k - 1, item)
      + if events[k - 1].0 == item && !events[k - 1].1.marketfeed && Wanted(c, events, k - 1) then 1 else 0
  }

  /** A consumer whose streams have seen nothing. */
  ghost predicate Untouched(s: ConsumerState) {
    && (forall item :: item in s.directory ==> s.directory[item] == FRESH)
    && s.archive == [] && s.unregistered == []
  }

  /** The stream of an item after the first k events. */
  function StreamAfter(c: Config, events: seq<(string, ItemEvent)>, k: nat, item: string): Stream
    requires k <= |events|
  {
    Stream(CountOf(events, k, item, Image) % UINT32, CountOf(events, k, item, Status) % UINT32,
           CountOf(events, k, item, Update) % UINT32,
           ClosedBy(events, k, item) || (Snapshot(c) && CountOf(events, k, item, Image) > 0))
  }

  lemma IncrementIsModulo(n: nat)
    ensures Increment(n % UINT32) == (n + 1) % UINT32
  {
  }

  lemma ClosedNext(events: seq<(string, ItemEvent)>, k: nat, item: string)
    requires k < |events|
    ensures ClosedBy(events, k + 1, item) <==> ClosedBy(events, k, item) || (events[k].0 == item && events[k].1.closed)
  {
  }

  /** The events of other items leave a stream alone. */
  lemma OtherStream(c: Config, events: seq<(string, ItemEvent)>, k: nat, item: string)
    requires k < |events| && events[k].0 != item
    ensures StreamAfter(c, events, k + 1, item) == StreamAfter(c, events, k, item)
  {
    ClosedNext(events, k, item);
  }

  lemma OwnStream(c: Config, events: seq<(string, ItemEvent)>, k: nat)
    requires k < |events|
    ensures var item, e := events[k].0, events[k].1;
      StreamAfter(c, events, k + 1, item) == Receive(c, Close(StreamAfter(c, events, k, item), e), e)
  {
    var item := events[k].0;
    ClosedNext(events, k, item);
    IncrementIsModulo(CountOf(events, k, item, Image));
    IncrementIsModulo(CountOf(events, k, item, Status));
    IncrementIsModulo(CountOf(events, k, item, Update));
  }

  /** After any history, in any mode, each counter of a stream is the number of the
      messages of its type, in 32 bits, and the stream is closed if an event closed it
      or, in snapshot mode, an image has come. */
  lemma {:induction false} StreamsAreCounts(c: Config, run: seq<ConsumerState>, events: seq<(string, ItemEvent)>,
                                            k: nat)
    requires IsHistory(c, run, events) && Untouched(run[0]) && k < |run|
    ensures run[k].directory.Keys == run[0].directory.Keys
    ensures forall item :: item in run[k].directory ==> run[k].directory[item] == StreamAfter(c, events, k, item)
    decreases k
  {
    hide StreamAfter, Receive, Close;
    if k == 0 {
      forall item | item in run[0].directory ensures StreamAfter(c, events, 0, item) == FRESH {
        NothingYet(c, events, item);
      }
    } else {
      StreamsAreCounts(c, run, events, k - 1);
      assert run[k - 1 + 1] == OnEvent(c, run[k - 1], events[k - 1].0, events[k - 1].1);
      forall item | item in run[k].directory ensures run[k].directory[item] == StreamAfter(c, events, k, item) {
        if item == events[k - 1].0 {
          OwnStream(c, events, k - 1);
        } else {
          OtherStream(c, events, k - 1, item);
        }
      }
    }
  }

  lemma NothingYet(c: Config, events: seq<(string, ItemEvent)>, item: string)
    ensures StreamAfter(c, events, 0, item) == FRESH
  {
  }

  lemma WantedIsArchivable(c: Config, events: seq<(string, ItemEvent)>, k: nat, s: Stream)
    requires k < |events| && s.refreshReceived == CountOf(events, k, events[k].0, Image) % UINT32
    ensures Archivable(c, s, events[k].1) <==> Wanted(c, events, k)
    ensures Completes(c, s, events[k].1) <==> Snapshot(c) && IsFirstImage(events, k)
  {
  }

  /** What one event of a history does, by what the history was. */
  lemma StreamBefore(c: Config, run: seq<ConsumerState>, events: seq<(string, ItemEvent)>, k: nat)
    requires IsHistory(c, run, events) && Untouched(run[0]) && k < |events|
    ensures var item, e := events[k].0, events[k].1;
      && item in run[k].directory && run[k + 1] == OnEvent(c, run[k], item, e)
      && (Archivable(c, run[k].directory[item], e) <==> Wanted(c, events, k))
      && (Completes(c, run[k].directory[item], e) <==> Snapshot(c) && IsFirstImage(events, k))
  {
    StreamsAreCounts(c, run, events, k);
    assert run[k + 1] == OnEvent(c, run[k], events[k].0, events[k].1);
    WantedIsArchivable(c, events, k, run[k].directory[events[k].0]);
  }

  /** The archive after any history holds exactly the wanted messages in marketfeed
      format, in order, and nothing without an output. */
  lemma {:induction false} ArchiveIsRecording(c: Config, run: seq<ConsumerState>, events: seq<(string, ItemEvent)>,
                                              k: nat)
    requires IsHistory(c, run, events) && Untouched(run[0]) && k < |run|
    ensures run[k].archive == Recording(c, events, k)
    decreases k
  {
    hide Archivable, Wanted, Completes;
    if k > 0 {
      ArchiveIsRecording(c, run, events, k - 1);
      StreamBefore(c, run, events, k - 1);
    }
  }

  lemma NextFirstImage(n: nat)
    ensures (n + 1 + (UINT32 - 1)) / UINT32 == (n + (UINT32 - 1)) / UINT32 + if n % UINT32 == 0 then 1 else 0
  {
  }

  /** What one more event adds to the cancellations of an item. */
  lemma CancelledByOne(c: Config, s: ConsumerState, events: seq<(string, ItemEvent)>, k: nat, item: string)
    requires k < |events| && events[k].0 in s.directory
    requires var stream, e := s.directory[events[k].0], events[k].1;
      && (Archivable(c, stream, e) <==> Wanted(c, events, k))
      && (Completes(c, stream, e) <==> Snapshot(c) && IsFirstImage(events, k))
    ensures multiset(OnEvent(c, s, events[k].0, events[k].1).unregistered)[item] - multiset(s.unregistered)[item]
         == Unsupported(c, events, k + 1, item) - Unsupported(c, events, k, item)
            + if !Snapshot(c) then 0
              else (CountOf(events, k + 1, item, Image) + (UINT32 - 1)) / UINT32
                   - (CountOf(events, k, item, Image) + (UINT32 - 1)) / UINT32
  {
    hide Archivable, Wanted, Completes, Snapshot;
    NextFirstImage(CountOf(events, k, item, Image));
  }

  /** In snapshot mode a stream is cancelled on its first image, once for every 2^32
      images; any other cancellation is for a format that is not supported. */
  lemma {:induction false} CancelledOnce(c: Config, run: seq<ConsumerState>, events: seq<(string, ItemEvent)>, k: nat,
                                         item: string)
    requires IsHistory(c, run, events) && Untouched(run[0]) && k < |run|
    ensures multiset(run[k].unregistered)[item] == Unsupported(c, events, k, item)
      + if Snapshot(c) then (CountOf(events, k, item, Image) + (UINT32 - 1)) / UINT32 else 0
    decreases k
  {
    hide OnEvent, Archivable, Wanted, Completes, Snapshot, IsFirstImage;
    if k > 0 {
      CancelledOnce(c, run, events, k - 1, item);
      StreamBefore(c, run, events, k - 1);
      CancelledByOne(c, run[k - 1], events, k - 1, item);
    }
  }
}
