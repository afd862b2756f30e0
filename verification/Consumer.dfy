// The consumer and its streams as objects: subscription and event handling.

module Consumers {
  import opened Sync

  class ItemStream {
    var itemName: string
    var subscribed: bool
    var refreshReceived: nat
    var statusReceived: nat
    var updateReceived: nat
    var isClosed: bool

    function Value(): Stream
      reads this
    {
      Stream(refreshReceived, statusReceived, updateReceived, isClosed)
    }

    constructor ()
      ensures Value() == Stream(0, 0, 0, false) && !subscribed && itemName == ""
    {
      itemName, subscribed := "", false;
      refreshReceived, statusReceived, updateReceived, isClosed := 0, 0, 0, false;
    }
  }

  /** The application's side of the callback. */
  class Torikuru {
    const consumers: nat
    const terminateOnSync: bool
    var consumersInSync: nat
    var queueActive: bool

    constructor (consumers: nat, terminateOnSync: bool)
      ensures this.consumers == consumers && this.terminateOnSync == terminateOnSync
      ensures consumersInSync == 0 && queueActive
    {
      this.consumers, this.terminateOnSync := consumers, terminateOnSync;
      consumersInSync, queueActive := 0, true;
    }

    /** f0 */
    method OnSync()
      modifies this
      ensures consumersInSync == old(consumersInSync) + 1
      ensures queueActive == (old(queueActive) && !(consumersInSync == consumers && terminateOnSync))
    {
      consumersInSync := consumersInSync + 1;
      if consumersInSync == consumers {
        if terminateOnSync {
          queueActive := false;
        }
      }
    }
  }

  class Consumer {
    const config: Config
    const app: Torikuru
    var refreshCount: nat
    var inSync: bool
    var isMuted: bool
    var directory: map<string, ItemStream>
    // What went to the archive and to the subscriber's unregisterClient, and the
    // items asked for.
    var archive: seq<Message>
    var unregistered: seq<string>
    var requests: multiset<string>
    // Calls of on_sync_ so far.
    ghost var syncs: nat

    /** No stream is entered under two names. */
    ghost predicate Valid()
      reads this
    {
      forall a, b :: a in directory && b in directory && a != b ==> directory[a] != directory[b]
    }

    function Streams(): map<string, Stream>
      reads this, directory.Values
    {
      map item | item in directory :: directory[item].Value()
    }

    ghost function View(): ConsumerState
      reads this, directory.Values
    {
      ConsumerState(refreshCount, inSync, Streams(), archive, unregistered, syncs)
    }

    constructor (config: Config, app: Torikuru)
      ensures Valid() && View() == ConsumerState(0, false, map[], [], [], 0)
      ensures this.config == config && this.app == app && isMuted && directory == map[] && requests == multiset{}
    {
      this.config, this.app := config, app;
      refreshCount, inSync, isMuted, directory := 0, false, true, map[];
      archive, unregistered, requests, syncs := [], [], multiset{}, 0;
    }

    /** Asks for the item; the request may be refused. */
    method SendItemRequest(itemName: string, itemStream: ItemStream, accepted: bool)
      modifies this`requests, itemStream`subscribed
      ensures requests == old(requests) + multiset{itemName} && itemStream.subscribed == accepted
    {
      requests := requests + multiset{itemName};
      itemStream.subscribed := accepted;
    }

    /** Enters the stream under its name, unless the name is taken. While unmuted it
        also asks for the item, which may be refused. */
    method CreateItemStream(itemName: string, itemStream: ItemStream, accepted: bool) returns (created: bool)
      requires Valid() && forall item :: item in directory ==> directory[item] != itemStream
      modifies this`directory, this`requests, itemStream`itemName, itemStream`subscribed
      ensures Valid() && itemStream.itemName == itemName
      ensures created == ((isMuted || accepted) && itemName !in old(directory))
      ensures directory == if created then old(directory)[itemName := itemStream] else old(directory)
      ensures itemStream.subscribed == if isMuted then old(itemStream.subscribed) else accepted
      ensures requests == old(requests) + if isMuted then multiset{} else multiset{itemName}
    {
      itemStream.itemName := itemName;
      if !isMuted {
        SendItemRequest(itemName, itemStream, accepted);
        if !accepted {
          return false;
        }
      }
      if itemName in directory {
        return false;
      }
      directory := directory[itemName := itemStream];
      return true;
    }

    method UnregisterClient(item: string)
      modifies this`unregistered
      ensures unregistered == old(unregistered) + [item]
    {
      unregistered := unregistered + [item];
    }

    /** check_sync: the latch, and its callback. */
    method CheckSync()
      modifies this`inSync, this`syncs, app
      ensures var complete := !old(inSync) && refreshCount == |directory|;
        && inSync == (old(inSync) || complete)
        && syncs == old(syncs) + (if complete then 1 else 0)
        && app.consumersInSync == old(app.consumersInSync) + (if complete then 1 else 0)
        && app.queueActive == (old(app.queueActive)
             && !(complete && app.consumersInSync == app.consumers && app.terminateOnSync))
    {
      if !inSync && refreshCount == |directory| {
        inSync := true;
        syncs := syncs + 1;
        app.OnSync();
      }
    }

    /** The switch over the message type; archivable says that control falls out of
        it rather than jumping to check_sync. */
    method Receive(itemStream: ItemStream, item: string, event: ItemEvent) returns (archivable: bool)
      modifies this`refreshCount, this`unregistered, itemStream
      ensures archivable == Archivable(config, old(itemStream.Value()), event)
      ensures itemStream.Value() == Sync.Receive(config, old(itemStream.Value()), event)
      ensures refreshCount == old(refreshCount) + if event.messageType.Image? &&
          old(itemStream.refreshReceived) == 0 then 1 else 0
      ensures unregistered == old(unregistered) + if Completes(config, old(itemStream.Value()),
          event) then [item] else []
      ensures itemStream.subscribed == old(itemStream.subscribed)
    {
      match event.messageType {
        case Image =>
          var received := itemStream.refreshReceived;
          itemStream.refreshReceived := Increment(received);
          if received == 0 {
            refreshCount := refreshCount + 1;
            if config.disableRefresh {
              return false;
            }
            if !config.interestAfterRefresh {
              itemStream.isClosed := true;
              UnregisterClient(item);
            }
          }
          return true;
        case Update =>
          itemStream.updateReceived := Increment(itemStream.updateReceived);
          return !config.disableUpdate;
        case Status =>
          itemStream.statusReceived := Increment(itemStream.statusReceived);
          return false;
        case UnsolicitedImage | ClosingRun | PermissionData | GroupChange => return false;
        case Correction | Rename | Other => return true;
      }
    }

    /** Everything before check_sync. */
    method Record(itemStream: ItemStream, item: string, event: ItemEvent)
      modifies this`refreshCount, this`archive, this`unregistered, itemStream
      ensures itemStream.Value() == Sync.Receive(config, Close(old(itemStream.Value()), event), event)
      ensures refreshCount == old(refreshCount) + Counted(old(itemStream.Value()), event)
      ensures archive == old(archive) + Archived(config, old(itemStream.Value()), item, event)
      ensures unregistered == old(unregistered) + Cancelled(config, old(itemStream.Value()), item, event)
    {
      if event.closed {
        if !itemStream.isClosed {
          refreshCount := refreshCount + 1;
          itemStream.isClosed := true;
        }
      }
      var archivable := Receive(itemStream, item, event);
      if archivable {
        if !event.marketfeed {
          UnregisterClient(item);
        } else if config.archiving {
          archive := archive + [Message(item, event.messageType)];
        }
      }
    }

    method OnMarketDataItemEvent(itemStream: ItemStream, item: string, event: ItemEvent)
      requires Valid() && item in directory && directory[item] == itemStream
      modifies this`refreshCount, this`inSync, this`archive, this`unregistered, this`syncs, itemStream, app
      ensures View() == OnEvent(config, old(View()), item, event)
      ensures var complete := inSync && !old(inSync);
        && app.consumersInSync == old(app.consumersInSync) + (if complete then 1 else 0)
        && app.queueActive == (old(app.queueActive)
             && !(complete && app.consumersInSync == app.consumers && app.terminateOnSync))
    {
      ghost var before := View();
      Record(itemStream, item, event);
      CheckSync();
      OneStreamChanged(before.directory, item);
      SameSize(before.directory, directory);
    }

    static lemma SameSize(a: map<string, Stream>, b: map<string, ItemStream>)
      requires a.Keys == b.Keys
      ensures |a| == |b|
    {
    }

    lemma OneStreamChanged(before: map<string, Stream>, item: string)
      requires item in directory && before.Keys == directory.Keys
      requires forall other :: other in directory && other != item ==> directory[other].Value() == before[other]
      ensures Streams() == before[item := directory[item].Value()]
    {
    }

    ghost function Unsubscribed(): set<string>
      reads this, directory.Values
    {
      set item | item in directory && !directory[item].subscribed
    }

    method RequestUnlessSubscribed(itemName: string, itemStream: ItemStream, accepted: bool)
      modifies this`requests, itemStream`subscribed
      ensures requests == old(requests) + if old(itemStream.subscribed) then multiset{} else multiset{itemName}
      ensures itemStream.subscribed == (old(itemStream.subscribed) || accepted)
    {
      if !itemStream.subscribed {
        SendItemRequest(itemName, itemStream, accepted);
      }
    }

    /** The requests sent once only pending is left to go through. */
    static ghost function Asked(before: multiset<string>, unsubscribed: set<string>, pending: set<string>)
      : multiset<string>
    {
      before + multiset(unsubscribed - pending)
    }

    static lemma AskedNoneAndAll(before: multiset<string>, unsubscribed: set<string>, items: set<string>)
      requires unsubscribed <= items
      ensures Asked(before, unsubscribed, items) == before
      ensures Asked(before, unsubscribed, {}) == before + multiset(unsubscribed)
    {
      assert unsubscribed - items == {} && unsubscribed - {} == unsubscribed;
    }

    static lemma AskedOneMore(before: multiset<string>, unsubscribed: set<string>, pending: set<string>, item: string)
      requires item in pending
      ensures Asked(before, unsubscribed, pending - {item})
           == Asked(before, unsubscribed, pending) + if item in unsubscribed then multiset{item} else multiset{}
    {
      if item in unsubscribed {
        assert unsubscribed - (pending - {item}) == unsubscribed - pending + {item};
      } else {
        assert unsubscribed - (pending - {item}) == unsubscribed - pending;
      }
    }

    /** Asks once for every item of the directory that is not subscribed yet. accepted
        are the requests that the session layer grants, ready says that the source
        of the session's protocol exists. */
    method Resubscribe(ready: bool, accepted: set<string>) returns (ok: bool)
      requires Valid()
      modifies this`requests, set item | item in directory :: directory[item]`subscribed
      ensures ok == ready
      ensures requests == old(requests) + multiset(if ready then old(Unsubscribed()) else {})
      ensures forall item :: item in directory ==>
        directory[item].subscribed == (old(directory[item].subscribed) || (ready && item in accepted))
    {
      hide Asked;
      if !ready {
        return false;
      }
      ghost var unsubscribed := Unsubscribed();
      var pending := directory.Keys;
      AskedNoneAndAll(requests, unsubscribed, pending);
      while pending != {}
        invariant pending <= directory.Keys
        invariant requests == Asked(old(requests), unsubscribed, pending)
        invariant forall item :: item in pending ==> directory[item].subscribed == (item !in unsubscribed)
        invariant forall item :: item in directory && item !in pending ==>
          directory[item].subscribed == (item !in unsubscribed || item in accepted)
        decreases pending
      {
        var item :| item in pending;
        AskedOneMore(old(requests), unsubscribed, pending, item);
        RequestUnlessSubscribed(item, directory[item], item in accepted);
        pending := pending - {item};
      }
      return true;
    }
  }

  // ---- All consumers together ----

  ghost function AllStreams(consumers: seq<Consumer>): set<object>
    reads consumers
  {
    set i, item | 0 <= i < |consumers| && item in consumers[i].directory :: consumers[i].directory[item]
  }

  ghost function Views(consumers: seq<Consumer>): (views: seq<ConsumerState>)
    reads consumers, AllStreams(consumers)
    ensures |views| == |consumers| && forall i :: 0 <= i < |views| ==> views[i] == consumers[i].View()
  {
    seq(|consumers|, i requires 0 <= i < |consumers|
                       reads consumers, AllStreams(consumers) => consumers[i].View())
  }

  ghost function AppView(consumers: seq<Consumer>, app: Torikuru): App
    reads app, consumers, AllStreams(consumers)
  {
    App(Views(consumers), app.consumersInSync, app.queueActive)
  }

  /** Different consumers with streams of their own, and the application's callback. */
  ghost predicate Wired(consumers: seq<Consumer>, config: Config, app: Torikuru)
    reads consumers
  {
    && app.consumers == |consumers|
    && (forall i :: 0 <= i < |consumers| ==>
          consumers[i].Valid() && consumers[i].app == app && consumers[i].config == config)
    && (forall i, j :: 0 <= i < j < |consumers| ==> consumers[i] != consumers[j])
    && forall i, j, a, b :: 0 <= i < j < |consumers| && a in consumers[i].directory && b in consumers[j].directory ==>
         consumers[i].directory[a] != consumers[j].directory[b]
  }

  // ---- Init ----

  /** A consumer that is muted, holds a stream that has seen nothing for each of the
      items, and has asked for none of them. */
  ghost predicate Waits(consumer: Consumer, items: set<string>)
    reads consumer, consumer.directory.Values
  {
    && consumer.Valid() && consumer.isMuted && consumer.directory.Keys == items && consumer.requests == multiset{}
    && consumer.View() == ConsumerState(0, false, consumer.Streams(), [], [], 0)
    && forall item :: item in items ==>
         consumer.directory[item].Value() == FRESH && !consumer.directory[item].subscribed
  }

  method CreateConsumers(sessions: nat, config: Config, app: Torikuru) returns (consumers: seq<Consumer>)
    requires app.consumers == sessions
    ensures Wired(consumers, config, app) && fresh(consumers) && |consumers| == sessions && AllStreams(consumers) == {}
    ensures forall i :: 0 <= i < sessions ==> Waits(consumers[i], {})
  {
    consumers := [];
    for n := 0 to sessions
      invariant |consumers| == n && fresh(consumers)
      invariant forall i, j :: 0 <= i < j < n ==> consumers[i] != consumers[j]
      invariant forall i :: 0 <= i < n ==> consumers[i].app == app && consumers[i].config == config
      invariant forall i :: 0 <= i < n ==> Waits(consumers[i], {})
    {
      var consumer := new Consumer(config, app);
      consumers := consumers + [consumer];
    }
  }

  /** Enters one instrument with one consumer. */
  method EnterInstrument(consumer: Consumer, instrument: string, ghost items: set<string>)
    requires Waits(consumer, items)
    modifies consumer
    ensures consumer.Valid() && Waits(consumer, items + {instrument})
    ensures forall item :: item in consumer.directory ==>
      consumer.directory[item] in old(consumer.directory.Values) || fresh(consumer.directory[item])
  {
    var itemStream := new ItemStream();
    var created := consumer.CreateItemStream(instrument, itemStream, false);
  }

  lemma Different(consumers: seq<Consumer>, config: Config, app: Torikuru)
    requires Wired(consumers, config, app)
    ensures forall i, j :: 0 <= i < |consumers| && 0 <= j < |consumers| && i != j ==> consumers[i] != consumers[j]
  {
  }

  /** Its new stream belongs to no other consumer. */
  method EnterWith(consumers: seq<Consumer>, n: nat, config: Config, app: Torikuru, instrument: string,
                   ghost items: set<string>)
    requires Wired(consumers, config, app) && n < |consumers| && Waits(consumers[n], items)
    modifies consumers[n]
    ensures Wired(consumers, config, app) && fresh(AllStreams(consumers) - old(AllStreams(consumers)))
    ensures Waits(consumers[n], items + {instrument})
  {
    hide Waits;
    EnterInstrument(consumers[n], instrument, items);
  }

  /** Enters one instrument with every consumer. */
  method EnterEverywhere(consumers: seq<Consumer>, config: Config, app: Torikuru, instrument: string,
                         ghost items: set<string>)
    requires Wired(consumers, config, app)
    requires forall i :: 0 <= i < |consumers| ==> Waits(consumers[i], items)
    modifies consumers
    ensures Wired(consumers, config, app) && fresh(AllStreams(consumers) - old(AllStreams(consumers)))
    ensures forall i :: 0 <= i < |consumers| ==> Waits(consumers[i], items + {instrument})
  {
    hide Waits, Wired;
    for n := 0 to |consumers|
      invariant Wired(consumers, config, app) && fresh(AllStreams(consumers) - old(AllStreams(consumers)))
      invariant forall i :: 0 <= i < n ==> Waits(consumers[i], items + {instrument})
      invariant forall i :: n <= i < |consumers| ==> Waits(consumers[i], items)
    {
      Different(consumers, config, app);
      EnterWith(consumers, n, config, app, instrument, items);
    }
  }

  /** A consumer that has seen nothing on its streams, has asked once for each of the
      items if it was ready to, and holds the subscriptions that were granted. */
  ghost predicate Began(consumer: Consumer, items: set<string>, ready: bool, accepted: set<string>)
    reads consumer, consumer.directory.Values
  {
    && consumer.directory.Keys == items && consumer.requests == multiset(if ready then items else {})
    && consumer.View() == ConsumerState(0, false, consumer.Streams(), [], [], 0)
    && forall item :: item in items ==>
         && consumer.directory[item].Value() == FRESH
         && consumer.directory[item].subscribed == (ready && item in accepted)
  }

  method Submit(consumer: Consumer, ready: bool, accepted: set<string>, ghost items: set<string>)
    requires Waits(consumer, items)
    modifies consumer, consumer.directory.Values
    ensures consumer.Valid() && consumer.directory == old(consumer.directory)
    ensures Began(consumer, items, ready, accepted)
  {
    assert consumer.Unsubscribed() == items;
    var ok := consumer.Resubscribe(ready, accepted);
  }

  /** Every consumer submits its subscriptions, each with a session of its own. */
  method SubmitAll(consumers: seq<Consumer>, config: Config, app: Torikuru, ready: nat -> bool,
                   accepted: nat -> set<string>, ghost items: set<string>)
    requires Wired(consumers, config, app)
    requires forall i :: 0 <= i < |consumers| ==> Waits(consumers[i], items)
    modifies consumers, AllStreams(consumers)
    ensures Wired(consumers, config, app)
    ensures forall i :: 0 <= i < |consumers| ==> Began(consumers[i], items, ready(i), accepted(i))
    ensures app.consumersInSync == old(app.consumersInSync) && app.queueActive == old(app.queueActive)
  {
    hide Waits, Began;
    for n := 0 to |consumers|
      invariant Wired(consumers, config, app)
      invariant forall i :: 0 <= i < |consumers| ==> consumers[i].directory == old(consumers[i].directory)
      invariant forall i :: 0 <= i < n ==> Began(consumers[i], items, ready(i), accepted(i))
      invariant forall i :: n <= i < |consumers| ==> Waits(consumers[i], items)
    {
      Submit(consumers[n], ready(n), accepted(n), items);
    }
  }

  lemma BeganIsStart(consumers: seq<Consumer>, app: Torikuru, items: set<string>, ready: nat -> bool,
                     accepted: nat -> set<string>)
    requires app.consumersInSync == 0 && app.queueActive
    requires forall i :: 0 <= i < |consumers| ==> Began(consumers[i], items, ready(i), accepted(i))
    ensures Start(AppView(consumers, app))
  {
    forall i | 0 <= i < |consumers|
      ensures Views(consumers)[i] == ConsumerState(0, false, Views(consumers)[i].directory, [], [], 0)
      ensures forall item :: item in Views(consumers)[i].directory ==> Views(consumers)[i].directory[item] == FRESH
    {
      assert Began(consumers[i], items, ready(i), accepted(i));
    }
  }

  /** From the switches to the running application: every session gets a consumer,
      every consumer a stream for each instrument, and the queue is active. */
  method Init(sessions: nat, disableUpdate: bool, disableRefresh: bool, terminateOnSync: bool, archiving: bool,
              instruments: seq<string>, ready: nat -> bool, accepted: nat -> set<string>)
    returns (app: Torikuru, consumers: seq<Consumer>, config: Config)
    ensures config == Config(disableUpdate, disableRefresh, !terminateOnSync, archiving)
    ensures fresh(app) && fresh(consumers) && |consumers| == sessions && app.terminateOnSync == terminateOnSync
    ensures Wired(consumers, config, app) && Start(AppView(consumers, app))
    ensures forall i :: 0 <= i < sessions ==>
      Began(consumers[i], (set instrument | instrument in instruments), ready(i), accepted(i))
  {
    hide Waits, Began, Start;
    config := Config(disableUpdate, disableRefresh, !terminateOnSync, archiving);
    app := new Torikuru(sessions, terminateOnSync);
    consumers := CreateConsumers(sessions, config, app);
    ghost var items: set<string> := {};
    for n := 0 to |instruments|
      invariant items == set instrument | instrument in instruments[..n]
      invariant Wired(consumers, config, app) && fresh(AllStreams(consumers))
      invariant app.consumersInSync == 0 && app.queueActive
      invariant forall i :: 0 <= i < sessions ==> Waits(consumers[i], items)
    {
      EnterEverywhere(consumers, config, app, instruments[n], items);
      items := items + {instruments[n]};
    }
    assert instruments[..|instruments|] == instruments;
    SubmitAll(consumers, config, app, ready, accepted, items);
    BeganIsStart(consumers, app, items, ready, accepted);
  }

  /** The event queue's dispatch of one event is one step of the whole application. */
  method DispatchEvent(consumers: seq<Consumer>, config: Config, app: Torikuru, d: Delivery)
    requires Wired(consumers, config, app)
    requires d.consumer < |consumers| && d.item in consumers[d.consumer].directory
    modifies app, consumers[d.consumer], consumers[d.consumer].directory[d.item]
    ensures Wired(consumers, config, app) && consumers[d.consumer].directory == old(consumers[d.consumer].directory)
    ensures AppView(consumers, app) == Dispatch(config, app.terminateOnSync, old(AppView(consumers, app)), d)
  {
    ghost var before := Views(consumers);
    var consumer := consumers[d.consumer];
    consumer.OnMarketDataItemEvent(consumer.directory[d.item], d.item, d.event);
    assert Views(consumers) == before[d.consumer := OnEvent(config, before[d.consumer], d.item, d.event)];
  }

  lemma StreamOfConsumer(consumers: seq<Consumer>, i: nat, item: string)
    requires i < |consumers| && item in consumers[i].directory
    ensures consumers[i].directory[item] in AllStreams(consumers)
  {
  }

  twostate lemma SameStreams(consumers: seq<Consumer>)
    requires forall i :: 0 <= i < |consumers| ==> consumers[i].directory == old(consumers[i].directory)
    ensures AllStreams(consumers) == old(AllStreams(consumers))
  {
  }

  /** The loop over the queue, in a snapshot capture: it stops at the last of the
      deliveries, or when the queue is no longer active, which is exactly when every
      consumer has synchronised. */
  method MainLoop(consumers: seq<Consumer>, config: Config, app: Torikuru, deliveries: seq<Delivery>,
                  ghost run: seq<App>)
    returns (dispatched: nat)
    requires Wired(consumers, config, app) && app.terminateOnSync && Snapshot(config)
    requires IsRun(config, run, deliveries) && AppView(consumers, app) == run[0]
    modifies app, consumers, AllStreams(consumers)
    ensures Wired(consumers, config, app)
    ensures dispatched <= |deliveries| && AppView(consumers, app) == run[dispatched]
    ensures dispatched < |deliveries| ==> !app.queueActive
    ensures app.queueActive <==> consumers == [] || exists i :: 0 <= i < |consumers| && !consumers[i].inSync
    ensures forall i :: 0 <= i < |consumers| ==> Exact(consumers[i].View())
  {
    hide Wired, Dispatch, Coherent, Exact, Start, AllStreams, Snapshot;
    dispatched := 0;
    while app.queueActive && dispatched < |deliveries|
      invariant dispatched <= |deliveries| && Wired(consumers, config, app)
      invariant AppView(consumers, app) == run[dispatched] && AllStreams(consumers) == old(AllStreams(consumers))
    {
      var d := deliveries[dispatched];
      assert Delivers(run[dispatched], d) && run[dispatched + 1] == Dispatch(config, true, run[dispatched], d);
      StreamOfConsumer(consumers, d.consumer, d.item);
      label before:
      DispatchEvent(consumers, config, app, d);
      SameStreams@before(consumers);
      dispatched := dispatched + 1;
    }
    SnapshotIsCoherent(config, run, deliveries, dispatched);
    CoherentView(consumers, app);
  }

  lemma CoherentView(consumers: seq<Consumer>, app: Torikuru)
    requires Coherent(AppView(consumers, app))
    ensures app.queueActive <==> consumers == [] || exists i :: 0 <= i < |consumers| && !consumers[i].inSync
    ensures forall i :: 0 <= i < |consumers| ==> Exact(consumers[i].View())
  {
    var views := Views(consumers);
    forall i | 0 <= i < |consumers| ensures views[i].inSync == consumers[i].inSync && Exact(views[i]) {
      assert views[i] == consumers[i].View();
    }
  }
}
