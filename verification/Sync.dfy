// When a subscription has seen everything once: the refresh count of each
// consumer, its latch, and the callback that ends a snapshot capture.

module Sync {

  datatype MessageType =
    | Image | Update | UnsolicitedImage | Status | Correction
    | ClosingRun | Rename | PermissionData | GroupChange | Other

  /** closed is the event's stream-closed flag, marketfeed its data format. */
  datatype ItemEvent = ItemEvent(closed: bool, messageType: MessageType, marketfeed: bool)

  const UINT32: nat := 0x1_0000_0000

  function Increment(n: nat): nat {
    (n + 1) % UINT32
  }

  datatype Stream = Stream(refreshReceived: nat, statusReceived: nat, updateReceived: nat, isClosed: bool)

  /** archiving says that there is an output stream. */
  datatype Config = Config(disableUpdate: bool, disableRefresh: bool, interestAfterRefresh: bool, archiving: bool)

  /** One archived message: the item and the message type it came with. */
  datatype Message = Message(item: string, messageType: MessageType)

  /** unregistered lists the items whose subscription the consumer has cancelled,
      syncs counts its calls of on_sync_. */
  datatype ConsumerState = ConsumerState(refreshCount: nat, inSync: bool, directory: map<string, Stream>,
                               archive: seq<Message>, unregistered: seq<string>, syncs: nat)

  // ---- One event ----

  function Close(s: Stream, e: ItemEvent): Stream {
    if e.closed then s.(isClosed := true) else s
  }

  /** The first image of a stream that keeps no interest closes it. */
  predicate Completes(c: Config, s: Stream, e: ItemEvent) {
    e.messageType.Image? && s.refreshReceived == 0 && !c.disableRefresh && !c.interestAfterRefresh
  }

  function Receive(c: Config, s: Stream, e: ItemEvent): Stream {
    match e.messageType
    case Image => s.(refreshReceived := Increment(s.refreshReceived), isClosed := s.isClosed || Completes(c, s, e))
    case Update => s.(updateReceived := Increment(s.updateReceived))
    case Status => s.(statusReceived := Increment(s.statusReceived))
    case _ => s
  }

  function Counted(s: Stream, e: ItemEvent): nat {
    (if e.closed && !s.isClosed then 1 else 0) + (if e.messageType.Image? && s.refreshReceived == 0 then 1 else 0)
  }

  /** The message types that go on to the archive. */
  predicate Archivable(c: Config, s: Stream, e: ItemEvent) {
    match e.messageType
    case Image => s.refreshReceived != 0 || !c.disableRefresh
    case Update => !c.disableUpdate
    case Correction | Rename | Other => true
    case _ => false
  }

  function Archived(c: Config, s: Stream, item: string, e: ItemEvent): seq<Message> {
    if Archivable(c, s, e) && e.marketfeed && c.archiving then [Message(item, e.messageType)] else []
  }

  /** A snapshot is complete, or its data format is not supported. */
  function Cancelled(c: Config, s: Stream, item: string, e: ItemEvent): seq<string> {
    (if Completes(c, s, e) then [item] else []) + (if Archivable(c, s, e) && !e.marketfeed then [item] else [])
  }

  /** One call of OnMarketDataItemEvent for the item. */
  function OnEvent(c: Config, s: ConsumerState, item: string, e: ItemEvent): ConsumerState
    requires item in s.directory
  {
    var stream := s.directory[item];
    var count := s.refreshCount + Counted(stream, e);
    var complete := !s.inSync && count == |s.directory|;
    ConsumerState(
      count,
      s.inSync || complete,
      s.directory[item := Receive(c, Close(stream, e), e)],
      s.archive + Archived(c, stream, item, e),
      s.unregistered + Cancelled(c, stream, item, e),
      s.syncs + if complete then 1 else 0)
  }

  // ---- What the count means ----

  /** The event refreshes or closes its stream. */
  predicate Settles(e: ItemEvent) {
    e.messageType.Image? || e.closed
  }

  function SettledWith(settled: set<string>, item: string, e: ItemEvent): set<string> {
    if Settles(e) then settled + {item} else settled
  }

  /** Streams outside the set were neither refreshed nor closed. A stream alone cannot
      tell, for its counter is back at 0 after 2^32 images. */
  predicate Covers(settled: set<string>, directory: map<string, Stream>) {
    && settled <= directory.Keys
    && forall item :: item in directory && item !in settled ==>
         directory[item].refreshReceived == 0 && !directory[item].isClosed
  }

  /** What the event adds to the count beyond the stream that it settles: for a settled
      stream everything, else the second of an image and a close in one. */
  function Extra(settled: bool, s: Stream, e: ItemEvent): nat {
    if !settled then (if e.closed && e.messageType.Image? then 1 else 0)
    else (if e.closed && !s.isClosed then 1 else 0) + (if e.messageType.Image? && s.refreshReceived == 0 then 1 else 0)
  }

  /** The image and the close of one stream are counted separately, and so is an
      image that finds the counter back at 0. */
  predicate Miscounts(settled: bool, s: Stream, e: ItemEvent) {
    Extra(settled, s, e) > 0
  }

  /** In every mode, an event raises the count by the stream that it settles, and by
      what it counts twice. */
  lemma CountAfter(c: Config, s: ConsumerState, settled: set<string>, item: string, e: ItemEvent)
    requires item in s.directory && Covers(settled, s.directory)
    ensures var t, after := OnEvent(c, s, item, e), SettledWith(settled, item, e);
      && Covers(after, t.directory)
      && t.refreshCount - |after| == s.refreshCount - |settled| + Extra(item in settled, s.directory[item], e)
  {
    if item in settled {
      assert settled + {item} == settled;
    }
  }

  /** In every mode, an event keeps the count equal to the number of settled streams
      exactly when it is not one that miscounts. */
  lemma CountStaysExact(c: Config, s: ConsumerState, settled: set<string>, item: string, e: ItemEvent)
    requires item in s.directory && Covers(settled, s.directory) && s.refreshCount == |settled|
    ensures OnEvent(c, s, item, e).refreshCount == |SettledWith(settled, item, e)|
       <==> !Miscounts(item in settled, s.directory[item], e)
  {
    CountAfter(c, s, settled, item, e);
  }

  /** A consumer after its own events, in any mode and any order. */
  ghost predicate IsHistory(c: Config, run: seq<ConsumerState>, events: seq<(string, ItemEvent)>) {
    && |run| == |events| + 1
    && forall k {:trigger events[k]} :: 0 <= k < |events| ==>
         events[k].0 in run[k].directory && run[k + 1] == OnEvent(c, run[k], events[k].0, events[k].1)
  }

  /** The streams settled at the start, and those that the first k events settled. */
  function SettledBy(start: set<string>, events: seq<(string, ItemEvent)>, k: nat): set<string>
    requires k <= |events|
  {
    if k == 0 then start else SettledWith(SettledBy(start, events, k - 1), events[k - 1].0, events[k - 1].1)
  }

  function ExtraAt(start: set<string>, run: seq<ConsumerState>, events: seq<(string, ItemEvent)>, k: nat): nat
    requires k < |events| <= |run| && events[k].0 in run[k].directory
  {
    Extra(events[k].0 in SettledBy(start, events, k), run[k].directory[events[k].0], events[k].1)
  }

  /** Event k of the history miscounts. */
  predicate MiscountsAt(start: set<string>, run: seq<ConsumerState>, events: seq<(string, ItemEvent)>, k: nat)
    requires k < |events| <= |run| && events[k].0 in run[k].directory
  {
    Miscounts(events[k].0 in SettledBy(start, events, k), run[k].directory[events[k].0], events[k].1)
  }

  function Extras(start: set<string>, run: seq<ConsumerState>, events: seq<(string, ItemEvent)>, k: nat): (n: nat)
    requires k <= |events| <= |run| && forall j :: 0 <= j < k ==> events[j].0 in run[j].directory
    ensures n == 0 <==> forall j :: 0 <= j < k ==> !MiscountsAt(start, run, events, j)
  {
    if k == 0 then 0
    else
      assert MiscountsAt(start, run, events, k - 1) <==> ExtraAt(start, run, events, k - 1) > 0;
      Extras(start, run, events, k - 1) + ExtraAt(start, run, events, k - 1)
  }

  /** A consumer whose count is the number of its settled streams. */
  predicate Counts(s: ConsumerState, settled: set<string>) {
    Covers(settled, s.directory) && s.refreshCount == |settled|
  }

  /** Over every run the count exceeds the number of settled streams by what was counted
      twice: it is never too small, and it is exact at the end if and only if no event
      of the run miscounted. */
  lemma {:induction false} RunCounts(c: Config, run: seq<ConsumerState>, events: seq<(string, ItemEvent)>,
                                     start: set<string>, k: nat)
    requires IsHistory(c, run, events) && k < |run| && Counts(run[0], start)
    ensures Covers(SettledBy(start, events, k), run[k].directory)
    ensures run[k].refreshCount == |SettledBy(start, events, k)| + Extras(start, run, events, k)
    ensures run[k].refreshCount == |SettledBy(start, events, k)|
       <==> forall j :: 0 <= j < k ==> !MiscountsAt(start, run, events, j)
    decreases k
  {
    hide OnEvent, Covers, Extra;
    if k > 0 {
      RunCounts(c, run, events, start, k - 1);
      var s, item, e := run[k - 1], events[k - 1].0, events[k - 1].1;
      assert run[k - 1 + 1] == OnEvent(c, s, item, e);
      CountAfter(c, s, SettledBy(start, events, k - 1), item, e);
    }
  }

  // ---- When the latch is set ----

  lemma SmallerSubset(a: set<string>, b: set<string>)
    requires a < b
    ensures |a| < |b|
  {
    var x :| x in b && x !in a;
    assert b == (b - a) + a && x in b - a;
    assert |b| == |b - a| + |a|;
  }

  /** The directory is full once every stream of it has settled. */
  lemma FullWhenAllSettled(settled: set<string>, directory: map<string, Stream>)
    requires settled <= directory.Keys
    ensures |settled| == |directory| <==> settled == directory.Keys
  {
    assert |directory| == |directory.Keys|;
    if settled < directory.Keys {
      SmallerSubset(settled, directory.Keys);
    }
  }

  lemma SameDirectory(c: Config, s: ConsumerState, item: string, e: ItemEvent)
    requires item in s.directory
    ensures var t := OnEvent(c, s, item, e);
      t.directory.Keys == s.directory.Keys && |t.directory| == |s.directory| && t.refreshCount >= s.refreshCount
  {
    assert OnEvent(c, s, item, e).directory.Keys == s.directory.Keys;
  }

  /** Without a miscount, no latch while some stream has not settled. */
  lemma {:induction false} NoLatchBefore(c: Config, run: seq<ConsumerState>, events: seq<(string, ItemEvent)>,
                                         start: set<string>, k: nat)
    requires IsHistory(c, run, events) && k < |run| && Counts(run[0], start) && !run[0].inSync
    requires forall j :: 0 <= j < k ==> !MiscountsAt(start, run, events, j)
    requires SettledBy(start, events, k) != run[k].directory.Keys
    ensures !run[k].inSync
    decreases k
  {
    if k > 0 {
      hide Covers, Extra;
      RunCounts(c, run, events, start, k);
      RunCounts(c, run, events, start, k - 1);
      assert run[k - 1 + 1] == OnEvent(c, run[k - 1], events[k - 1].0, events[k - 1].1);
      SameDirectory(c, run[k - 1], events[k - 1].0, events[k - 1].1);
      NoLatchBefore(c, run, events, start, k - 1);
      FullWhenAllSettled(SettledBy(start, events, k), run[k].directory);
    }
  }

  /** In every mode and over every run, the event that settles the last stream sets the
      latch, and calls back, if and only if no event up to and including it miscounted.
      Otherwise the latch was set too early, or it is not set by then. */
  lemma SyncsOnTime(c: Config, run: seq<ConsumerState>, events: seq<(string, ItemEvent)>, start: set<string>, k: nat)
    requires IsHistory(c, run, events) && k < |events| && Counts(run[0], start) && !run[0].inSync
    requires SettledBy(start, events, k) != run[k].directory.Keys
    requires SettledBy(start, events, k + 1) == run[k + 1].directory.Keys
    ensures !run[k].inSync && run[k + 1].inSync <==> forall j :: 0 <= j <= k ==> !MiscountsAt(start, run, events, j)
    ensures run[k + 1].syncs == run[k].syncs + 1 <==> !run[k].inSync && run[k + 1].inSync
  {
    RunCounts(c, run, events, start, k + 1);
    assert run[k + 1] == OnEvent(c, run[k], events[k].0, events[k].1);
    SameDirectory(c, run[k], events[k].0, events[k].1);
    FullWhenAllSettled(SettledBy(start, events, k + 1), run[k + 1].directory);
    if forall j :: 0 <= j <= k ==> !MiscountsAt(start, run, events, j) {
      NoLatchBefore(c, run, events, start, k);
    }
  }

  lemma OvershootStep(c: Config, s: ConsumerState, item: string, e: ItemEvent)
    requires item in s.directory && !s.inSync && OnEvent(c, s, item, e).refreshCount > |s.directory|
    ensures var t := OnEvent(c, s, item, e);
      !t.inSync && t.syncs == s.syncs
  {
  }

  /** Once the count has passed the size of the directory, no event ever sets the latch. */
  lemma {:induction false} OvershootNeverSyncs(c: Config, run: seq<ConsumerState>, events: seq<(string, ItemEvent)>,
                                               k: nat, m: nat)
    requires IsHistory(c, run, events) && k <= m < |run| && !run[k].inSync && run[k].refreshCount > |run[k].directory|
    ensures !run[m].inSync && run[m].syncs == run[k].syncs && run[m].refreshCount > |run[m].directory|
    decreases m
  {
    if m > k {
      OvershootNeverSyncs(c, run, events, k, m - 1);
      assert run[m - 1 + 1] == OnEvent(c, run[m - 1], events[m - 1].0, events[m - 1].1);
      SameDirectory(c, run[m - 1], events[m - 1].0, events[m - 1].1);
      OvershootStep(c, run[m - 1], events[m - 1].0, events[m - 1].1);
    }
  }

  lemma {:induction false} LatchHolds(c: Config, run: seq<ConsumerState>, events: seq<(string, ItemEvent)>,
                                      k: nat, m: nat)
    requires IsHistory(c, run, events) && k <= m < |run| && run[k].inSync
    ensures run[m].inSync && run[m].syncs == run[k].syncs
    decreases m
  {
    if m > k {
      LatchHolds(c, run, events, k, m - 1);
      assert run[m - 1 + 1] == OnEvent(c, run[m - 1], events[m - 1].0, events[m - 1].1);
    }
  }

  /** If an event miscounted, then when all streams have settled it is too late: the
      latch stays for good as it was before the event that settled the last one. */
  lemma EarlyOrNever(c: Config, run: seq<ConsumerState>, events: seq<(string, ItemEvent)>, start: set<string>,
                     j: nat, k: nat, m: nat)
    requires IsHistory(c, run, events) && j <= k < |events| && k < m < |run| && Counts(run[0], start)
    requires SettledBy(start, events, k + 1) == run[k + 1].directory.Keys && MiscountsAt(start, run, events, j)
    ensures run[m].inSync == run[k].inSync && run[m].syncs == run[k].syncs
  {
    if run[k].inSync {
      LatchHolds(c, run, events, k, m);
    } else {
      OvershootWhenSettled(c, run, events, start, j, k);
      OvershootNeverSyncs(c, run, events, k + 1, m);
    }
  }

  lemma OvershootWhenSettled(c: Config, run: seq<ConsumerState>, events: seq<(string, ItemEvent)>, start: set<string>,
                             j: nat, k: nat)
    requires IsHistory(c, run, events) && j <= k < |events| && Counts(run[0], start) && !run[k].inSync
    requires SettledBy(start, events, k + 1) == run[k + 1].directory.Keys && MiscountsAt(start, run, events, j)
    ensures !run[k + 1].inSync && run[k + 1].syncs == run[k].syncs
    ensures run[k + 1].refreshCount > |run[k + 1].directory|
  {
    hide OnEvent, Covers, Extra;
    RunCounts(c, run, events, start, k + 1);
    assert run[k + 1] == OnEvent(c, run[k], events[k].0, events[k].1);
    SameDirectory(c, run[k], events[k].0, events[k].1);
    assert |run[k + 1].directory.Keys| == |run[k].directory|;
    OvershootStep(c, run[k], events[k].0, events[k].1);
  }

  const FRESH: Stream := Stream(0, 0, 0, false)

  /** Refreshed or closed, as far as the stream shows it. */
  predicate Settled(s: Stream) {
    s.refreshReceived > 0 || s.isClosed
  }

  /** A consumer of one stream that has seen nothing. */
  function OneStream(item: string): ConsumerState {
    ConsumerState(0, false, map[item := FRESH], [], [], 0)
  }

  /** The first image of the only stream arrives with the close: the count goes from
      0 to 2 in one event, and the capture never ends. */
  lemma ClosedImageNeverSyncs(c: Config, item: string, run: seq<ConsumerState>,
                              events: seq<(string, ItemEvent)>, k: nat)
    requires IsHistory(c, run, events) && run[0] == OneStream(item) && 1 <= k < |run|
    requires events[0].0 == item && events[0].1.closed && events[0].1.messageType == Image
    ensures run[1].refreshCount == 2 && !run[k].inSync && run[k].syncs == 0
  {
    var s, t := run[0], run[0 + 1];
    assert t == OnEvent(c, s, item, events[0].1);
    assert t.directory.Keys == {item};
    OvershootNeverSyncs(c, run, events, 1, k);
  }

  /** An image and then a close, with updates kept: one stream counts twice, and a
      consumer of two streams synchronises while the other has seen nothing. */
  lemma ImageThenCloseSyncsEarly(a: string, b: string, s: ConsumerState, t: ConsumerState)
    requires a != b
    requires var start := ConsumerState(0, false, map[a := FRESH, b := FRESH], [], [], 0);
      s == OnEvent(Config(false, false, true, false), start, a, ItemEvent(false, Image, true))
    requires a in s.directory && t == OnEvent(Config(false, false, true, false), s, a, ItemEvent(true, Status, true))
    ensures t.inSync && t.refreshCount == 2 && b in t.directory && !Settled(t.directory[b])
  {
    assert s.directory.Keys == {a, b};
    assert |s.directory| == 2 && |map[a := FRESH, b := FRESH]| == 2;
  }

  // ---- Snapshot mode ----

  /** --terminate-on-sync with refreshes enabled. */
  predicate Snapshot(c: Config) {
    !c.disableRefresh && !c.interestAfterRefresh
  }

  /** No image is delivered on or after the close of its stream. */
  predicate Deliverable(s: ConsumerState, item: string, e: ItemEvent) {
    item in s.directory && (e.messageType.Image? ==> !e.closed && !s.directory[item].isClosed)
  }

  /** In snapshot mode the flag is set with the first image, so that the counter of a
      settled stream is never read again. */
  function SettledItems(directory: map<string, Stream>): set<string> {
    set item | item in directory && Settled(directory[item])
  }

  predicate AllSettled(directory: map<string, Stream>) {
    SettledItems(directory) == directory.Keys
  }

  /** The count is exact, the latch is set once everything has settled, and the
      callback was called once for the latch. */
  ghost predicate Exact(s: ConsumerState) {
    && (forall item :: item in s.directory ==>
          s.directory[item].refreshReceived < UINT32 &&
              (s.directory[item].refreshReceived > 0 ==> s.directory[item].isClosed))
    && s.refreshCount == |SettledItems(s.directory)|
    && (s.inSync ==> AllSettled(s.directory))
    && (s.directory.Keys != {} && AllSettled(s.directory) ==> s.inSync)
    && s.syncs == if s.inSync then 1 else 0
  }

  lemma SettledStays(s: Stream, c: Config, e: ItemEvent)
    requires s.refreshReceived < UINT32 && (s.refreshReceived > 0 ==> s.isClosed)
    requires Snapshot(c) && (e.messageType.Image? ==> !e.closed && !s.isClosed)
    ensures var t := Receive(c, Close(s, e), e);
            && t.refreshReceived < UINT32 && (t.refreshReceived > 0 ==> t.isClosed)
            && !Miscounts(Settled(s), s, e) && (Settled(t) <==> Settled(s) || Settles(e))
  {
  }

  /** Everything of the consumer but its latch and callbacks, after an event. */
  lemma StreamsStayExact(c: Config, s: ConsumerState, item: string, e: ItemEvent)
    requires Snapshot(c) && Deliverable(s, item, e) && Exact(s)
    ensures var t := OnEvent(c, s, item, e);
            && (forall i :: i in t.directory ==>
                  t.directory[i].refreshReceived < UINT32 &&
                      (t.directory[i].refreshReceived > 0 ==> t.directory[i].isClosed))
            && t.refreshCount == |SettledItems(t.directory)|
            && (AllSettled(s.directory) ==> AllSettled(t.directory))
  {
    SettledStays(s.directory[item], c, e);
    CountAfter(c, s, SettledItems(s.directory), item, e);
    assert SettledItems(OnEvent(c, s, item, e).directory) == SettledWith(SettledItems(s.directory), item, e);
  }

  /** A delivered event keeps the count exact, and calls on_sync_ exactly when it
      completes the last stream. */
  lemma EventStaysExact(c: Config, s: ConsumerState, item: string, e: ItemEvent)
    requires Snapshot(c) && Deliverable(s, item, e) && Exact(s)
    ensures var t := OnEvent(c, s, item, e);
            && Exact(t) && t.directory.Keys == s.directory.Keys
            && (t.syncs == s.syncs + 1 <==> !AllSettled(s.directory) && AllSettled(t.directory))
            && (t.syncs == s.syncs <==> t.inSync == s.inSync)
  {
    var t := OnEvent(c, s, item, e);
    StreamsStayExact(c, s, item, e);
    FullWhenAllSettled(SettledItems(t.directory), t.directory);
    assert |t.directory| == |s.directory| by {
      assert t.directory.Keys == s.directory.Keys;
    }
    assert item in s.directory.Keys;
  }

  // ---- All consumers, and the queue ----

  datatype App = App(consumers: seq<ConsumerState>, consumersInSync: nat, active: bool)

  /** f0: one more consumer has synchronised. */
  function OnSync(app: App, terminateOnSync: bool): App {
    var n := app.consumersInSync + 1;
    app.(consumersInSync := n, active := app.active && !(n == |app.consumers| && terminateOnSync))
  }

  datatype Delivery = Delivery(consumer: nat, item: string, event: ItemEvent)

  /** The event queue dispatches one event to one consumer. */
  function Dispatch(c: Config, terminateOnSync: bool, app: App, d: Delivery): App
    requires d.consumer < |app.consumers| && d.item in app.consumers[d.consumer].directory
  {
    var s := app.consumers[d.consumer];
    var t := OnEvent(c, s, d.item, d.event);
    var after := app.(consumers := app.consumers[d.consumer := t]);
    if t.inSync && !s.inSync then OnSync(after, terminateOnSync) else after
  }

  function InSync(consumers: seq<ConsumerState>): nat {
    if consumers == [] then 0
    else InSync(consumers[..|consumers| - 1]) + if consumers[|consumers| - 1].inSync then 1 else 0
  }

  predicate AllInSync(consumers: seq<ConsumerState>) {
    forall i :: 0 <= i < |consumers| ==> consumers[i].inSync
  }

  lemma {:induction false} InSyncAfter(consumers: seq<ConsumerState>, i: nat, t: ConsumerState)
    requires i < |consumers|
    ensures InSync(consumers[i := t])
         == InSync(consumers) - (if consumers[i].inSync then 1 else 0) + (if t.inSync then 1 else 0)
    decreases consumers
  {
    var n := |consumers| - 1;
    if i == n {
      assert consumers[i := t][..n] == consumers[..n];
    } else {
      assert consumers[i := t][..n] == consumers[..n][i := t];
      InSyncAfter(consumers[..n], i, t);
    }
  }

  lemma AllInSyncSplits(consumers: seq<ConsumerState>, n: nat)
    requires |consumers| == n + 1
    ensures AllInSync(consumers) <==> AllInSync(consumers[..n]) && consumers[n].inSync
  {
  }

  lemma {:induction false} FullWhenAllInSync(consumers: seq<ConsumerState>)
    ensures InSync(consumers) <= |consumers|
    ensures InSync(consumers) == |consumers| <==> AllInSync(consumers)
    decreases consumers
  {
    if consumers != [] {
      var n := |consumers| - 1;
      FullWhenAllInSync(consumers[..n]);
      AllInSyncSplits(consumers, n);
    }
  }

  /** Every consumer is exact, and the queue is deactivated exactly when every
      consumer has synchronised. */
  ghost predicate Coherent(app: App) {
    && (forall i :: 0 <= i < |app.consumers| ==> Exact(app.consumers[i]))
    && app.consumersInSync == InSync(app.consumers)
    && (app.active <==> app.consumers == [] || !AllInSync(app.consumers))
  }

  /** After Init: every directory filled with streams that have seen nothing. */
  ghost predicate Start(app: App) {
    && app.consumersInSync == 0 && app.active
    && forall i :: 0 <= i < |app.consumers| ==>
         app.consumers[i] == ConsumerState(0, false, app.consumers[i].directory, [], [], 0)
         && forall item :: item in app.consumers[i].directory ==> app.consumers[i].directory[item] == FRESH
  }

  lemma StartIsExact(s: ConsumerState)
    requires s == ConsumerState(0, false, s.directory, [], [], 0)
    requires forall item :: item in s.directory ==> s.directory[item] == FRESH
    ensures Exact(s)
  {
  }

  lemma {:induction false} NoneInSync(consumers: seq<ConsumerState>)
    requires forall i :: 0 <= i < |consumers| ==> !consumers[i].inSync
    ensures InSync(consumers) == 0
    decreases consumers
  {
    if consumers != [] {
      NoneInSync(consumers[..|consumers| - 1]);
    }
  }

  lemma StartIsCoherent(app: App)
    requires Start(app)
    ensures Coherent(app)
  {
    forall i | 0 <= i < |app.consumers| ensures Exact(app.consumers[i]) {
      StartIsExact(app.consumers[i]);
    }
    NoneInSync(app.consumers);
    if app.consumers != [] {
      assert !app.consumers[0].inSync;
    }
  }

  predicate Delivers(app: App, d: Delivery) {
    d.consumer < |app.consumers| && Deliverable(app.consumers[d.consumer], d.item, d.event)
  }

  lemma DispatchStaysCoherent(c: Config, app: App, d: Delivery)
    requires Snapshot(c) && Coherent(app) && Delivers(app, d)
    ensures Coherent(Dispatch(c, true, app, d))
  {
    var i, s := d.consumer, app.consumers[d.consumer];
    EventStaysExact(c, s, d.item, d.event);
    var t := OnEvent(c, s, d.item, d.event);
    var after := app.consumers[i := t];
    InSyncAfter(app.consumers, i, t);
    FullWhenAllInSync(app.consumers);
    FullWhenAllInSync(after);
    StillExact(app.consumers, i, t, after);
    LatchStays(c, s, d.item, d.event);
  }

  /** In every mode, the application counts the consumers that have synchronised, and the
      queue stops with a dispatch that completes them, when told to, and never else. */
  lemma DispatchCounts(c: Config, terminateOnSync: bool, app: App, d: Delivery)
    requires d.consumer < |app.consumers| && d.item in app.consumers[d.consumer].directory
    requires app.consumersInSync == InSync(app.consumers)
    ensures var after := Dispatch(c, terminateOnSync, app, d);
      var completes := !AllInSync(app.consumers) && AllInSync(after.consumers);
      && after.consumersInSync == InSync(after.consumers)
      && (after.active <==> app.active && !(terminateOnSync && completes))
  {
    var i, s := d.consumer, app.consumers[d.consumer];
    var t := OnEvent(c, s, d.item, d.event);
    InSyncAfter(app.consumers, i, t);
    FullWhenAllInSync(app.consumers);
    FullWhenAllInSync(app.consumers[i := t]);
    LatchStays(c, s, d.item, d.event);
  }

  lemma LatchStays(c: Config, s: ConsumerState, item: string, e: ItemEvent)
    requires item in s.directory
    ensures s.inSync ==> OnEvent(c, s, item, e).inSync
  {
  }

  lemma StillExact(consumers: seq<ConsumerState>, i: nat, t: ConsumerState, after: seq<ConsumerState>)
    requires i < |consumers| && Exact(t) && after == consumers[i := t]
    requires forall j :: 0 <= j < |consumers| ==> Exact(consumers[j])
    ensures forall j :: 0 <= j < |after| ==> Exact(after[j])
  {
  }

  ghost predicate IsRun(c: Config, run: seq<App>, deliveries: seq<Delivery>) {
    && |run| == |deliveries| + 1 && Start(run[0])
    && forall k {:trigger deliveries[k]} :: 0 <= k < |deliveries| ==>
         Delivers(run[k], deliveries[k]) && run[k + 1] == Dispatch(c, true, run[k], deliveries[k])
  }

  /** In a snapshot capture, whatever is delivered in whatever order, every count is
      exact, every callback comes once and on the completing event, and the queue
      stops exactly when all consumers have synchronised. */
  lemma {:induction false} SnapshotIsCoherent(c: Config, run: seq<App>, deliveries: seq<Delivery>, k: nat)
    requires Snapshot(c) && IsRun(c, run, deliveries) && k < |run|
    ensures Coherent(run[k])
    decreases k
  {
    if k == 0 {
      StartIsCoherent(run[0]);
    } else {
      SnapshotIsCoherent(c, run, deliveries, k - 1);
      assert run[k - 1 + 1] == Dispatch(c, true, run[k - 1], deliveries[k - 1]);
      DispatchStaysCoherent(c, run[k - 1], deliveries[k - 1]);
    }
  }
}
