/** The batch consumer of due events: handleBatch in
    api/internal/transport/messaging/scheduled_due_consumer.go. */
module DueConsumer {
  import opened Ports
  import opened Events

  datatype Notification = Notification(channel: string, recipient: string, content: string,
                                       priority: string, maxAttempts: int)

  type Rows = map<Uuid, Notification>

  /** What surrounds a batch: how strings parse to ids and ids print, the table (or its
      failure to answer), and the reply to the publish made for message k. */
  datatype World = World(parse: string -> Option<Uuid>, show: Uuid -> string, rows: Option<Rows>,
                         publish: nat -> PublishReply)

  datatype Publication = Publication(message: nat, topic: string, event: ReadyEvent)

  function ReadyEventFor(w: World, id: Uuid, n: Notification): ReadyEvent {
    ReadyEvent(w.show(id), n.channel, n.recipient, n.content, n.priority, n.maxAttempts)
  }

  function Parsed(w: World, batch: seq<string>): set<Uuid> {
    set k | 0 <= k < |batch| && w.parse(batch[k]).Some? :: w.parse(batch[k]).value
  }

  /** Message k is the last of the batch that names its id: the map entry that survives. */
  predicate Speaks(w: World, batch: seq<string>, k: nat)
    requires k < |batch|
  {
    w.parse(batch[k]).Some? && forall j | k < j < |batch| :: w.parse(batch[j]) != w.parse(batch[k])
  }

  /** byID names, for each id the batch mentions, the message that speaks for it. */
  ghost predicate Entries(w: World, batch: seq<string>, byID: map<Uuid, nat>) {
    && byID.Keys == Parsed(w, batch)
    && forall id | id in byID ::
         byID[id] < |batch| && w.parse(batch[byID[id]]) == Some(id) && Speaks(w, batch, byID[id])
  }

  /** The message speaks for an id that is not among those still to do. */
  ghost predicate Done(w: World, batch: seq<string>, todo: set<Uuid>, k: nat) {
    k < |batch| && Speaks(w, batch, k) && w.parse(batch[k]).value !in todo
  }

  /** The row of the message's id is there, so its ready event is published. */
  ghost predicate Tried(w: World, batch: seq<string>, k: nat)
    requires k < |batch|
  {
    w.parse(batch[k]).Some? && w.rows.Some? && w.parse(batch[k]).value in w.rows.value
  }

  ghost predicate Served(w: World, batch: seq<string>, k: nat)
    requires k < |batch|
  {
    Tried(w, batch, k) && w.publish(k).Confirmed?
  }

  ghost predicate Announced(w: World, batch: seq<string>, k: nat)
    requires k < |batch|
  {
    Tried(w, batch, k) && Stores(w.publish(k))
  }

  /** The message does not parse, or speaks for an id that could not be served. */
  ghost predicate Rejected(w: World, batch: seq<string>, k: nat) {
    k < |batch| && (w.parse(batch[k]).None? || (Speaks(w, batch, k) && !Served(w, batch, k)))
  }

  ghost predicate NoRepeats(s: seq<nat>) {
    forall j, k | 0 <= j < k < |s| :: s[j] != s[k]
  }

  ghost predicate Settled(w: World, batch: seq<string>, acks: seq<nat>, naks: seq<nat>) {
    && NoRepeats(acks) && NoRepeats(naks)
    && (forall k: nat :: k in acks <==> Done(w, batch, {}, k) && Served(w, batch, k))
    && (forall k: nat :: k in naks <==> Rejected(w, batch, k))
  }

  /** The messages for which something was published, in the order of publication. */
  function MessagesOf(published: seq<Publication>): (messages: seq<nat>)
    ensures |messages| == |published|
  {
    seq(|published|, p requires 0 <= p < |published| => published[p].message)
  }

  lemma MessagesAppend(published: seq<Publication>, p: Publication)
    ensures MessagesOf(published + [p]) == MessagesOf(published) + [p.message]
  {
  }

  ghost predicate PublishedFor(w: World, batch: seq<string>, p: Publication) {
    var k := p.message;
    && k < |batch| && Tried(w, batch, k)
    && var n := w.rows.value[w.parse(batch[k]).value];
       && p.event.notificationId == w.show(w.parse(batch[k]).value) && p.event.channel == n.channel
       && p.event.recipient == n.recipient && p.event.content == n.content
       && p.event.priority == n.priority && p.event.maxAttempts == n.maxAttempts
       && p.topic == TopicByPriority(n.priority)
  }

  /** What is in the stream: one ready event, with the fields of its row and on the topic of
      its priority, for each message outside `todo` whose publish stored it. */
  ghost predicate Published(w: World, batch: seq<string>, todo: set<Uuid>, published: seq<Publication>) {
    && NoRepeats(MessagesOf(published))
    && (forall p | 0 <= p < |published| :: PublishedFor(w, batch, published[p]))
    && (forall k: nat :: k in MessagesOf(published) <==> Done(w, batch, todo, k) && Announced(w, batch, k))
  }

  ghost predicate IsUnparsed(w: World, batch: seq<string>, naks: seq<nat>) {
    NoRepeats(naks) && forall k: nat :: k in naks <==> k < |batch| && w.parse(batch[k]).None?
  }

  lemma ParsedAppend(w: World, batch: seq<string>, i: nat)
    requires i < |batch|
    ensures Parsed(w, batch[..i + 1]) ==
            Parsed(w, batch[..i]) + (if w.parse(batch[i]).Some? then {w.parse(batch[i]).value} else {})
  {
    var longer := batch[..i + 1];
    assert forall k | 0 <= k < i :: batch[..i][k] == longer[k];
    assert longer[i] == batch[i];
  }

  lemma EntriesAppend(w: World, batch: seq<string>, i: nat, byID: map<Uuid, nat>)
    requires i < |batch| && Entries(w, batch[..i], byID)
    ensures Entries(w, batch[..i + 1], if w.parse(batch[i]).None? then byID else byID[w.parse(batch[i]).value := i])
  {
    ParsedAppend(w, batch, i);
    var longer := batch[..i + 1];
    assert forall k | 0 <= k < i :: batch[..i][k] == longer[k] == batch[k];
    assert longer[i] == batch[i];
    forall id | id in byID && w.parse(batch[i]) != Some(id)
      ensures Speaks(w, longer, byID[id])
    {
      assert Speaks(w, batch[..i], byID[id]);
      forall j | byID[id] < j < |longer| ensures w.parse(longer[j]) != w.parse(longer[byID[id]]) {
        if j < i { assert longer[j] == batch[..i][j]; }
      }
    }
  }

  lemma SpeakerIsEntry(w: World, batch: seq<string>, byID: map<Uuid, nat>, k: nat)
    requires Entries(w, batch, byID) && k < |batch| && Speaks(w, batch, k)
    ensures var id := w.parse(batch[k]).value;
            id in byID && byID[id] == k
  {
    var id := w.parse(batch[k]).value;
    assert id in Parsed(w, batch);
    assert Speaks(w, batch, byID[id]);
  }

  lemma NothingDone(w: World, batch: seq<string>, byID: map<Uuid, nat>)
    requires Entries(w, batch, byID)
    ensures forall k: nat :: !Done(w, batch, byID.Keys, k)
  {
    forall k: nat | k < |batch| && Speaks(w, batch, k)
      ensures w.parse(batch[k]).value in byID
    {
      SpeakerIsEntry(w, batch, byID, k);
    }
  }

  /** Taking an id off the list adds exactly its own message to those done. */
  lemma DoneWithout(w: World, batch: seq<string>, byID: map<Uuid, nat>, todo: set<Uuid>, id: Uuid)
    requires Entries(w, batch, byID) && id in todo && todo <= byID.Keys
    ensures forall k: nat :: Done(w, batch, todo - {id}, k) <==> Done(w, batch, todo, k) || k == byID[id]
    ensures !Done(w, batch, todo, byID[id])
  {
    forall k: nat
      ensures Done(w, batch, todo - {id}, k) <==> Done(w, batch, todo, k) || k == byID[id]
    {
      if k < |batch| && Speaks(w, batch, k) { SpeakerIsEntry(w, batch, byID, k); }
    }
  }

  /** The first loop: messages that do not parse are nak'ed, and the last one to name an id
      is the one that will be settled for it. */
  method IndexBatch(batch: seq<string>, w: World) returns (resultByID: map<Uuid, nat>, naks: seq<nat>)
    ensures Entries(w, batch, resultByID)
    ensures IsUnparsed(w, batch, naks)
  {
    resultByID, naks := map[], [];
    var i := 0;
    while i < |batch|
      invariant 0 <= i <= |batch|
      invariant forall k: nat :: k in naks <==> k < i && w.parse(batch[k]).None?
      invariant NoRepeats(naks)
      invariant Entries(w, batch[..i], resultByID)
    {
      var parsed := w.parse(batch[i]);
      EntriesAppend(w, batch, i, resultByID);
      if parsed.None? {
        naks := naks + [i];
      } else {
        resultByID := resultByID[parsed.value := i];
      }
      i := i + 1;
    }
    assert batch[..i] == batch;
  }

  /** The bulk fetch failed: every message that speaks for an id is nak'ed. */
  method NakAll(batch: seq<string>, w: World, resultByID: map<Uuid, nat>, unparsed: seq<nat>)
    returns (naks: seq<nat>)
    requires Entries(w, batch, resultByID) && w.rows.None? && IsUnparsed(w, batch, unparsed)
    ensures Settled(w, batch, [], naks)
  {
    naks := unparsed;
    var todo := resultByID.Keys;
    NothingDone(w, batch, resultByID);
    while todo != {}
      invariant todo <= resultByID.Keys && NoRepeats(naks)
      invariant forall k: nat :: k in naks <==> k in unparsed || Done(w, batch, todo, k)
      decreases todo
    {
      var id :| id in todo;
      DoneWithout(w, batch, resultByID, todo, id);
      naks := naks + [resultByID[id]];
      todo := todo - {id};
    }
  }

  /** The rows are there: each id's message is published for and acked, or nak'ed. */
  method FanOut(batch: seq<string>, w: World, resultByID: map<Uuid, nat>, unparsed: seq<nat>)
    returns (acks: seq<nat>, naks: seq<nat>, published: seq<Publication>)
    requires Entries(w, batch, resultByID) && w.rows.Some? && IsUnparsed(w, batch, unparsed)
    ensures Settled(w, batch, acks, naks)
    ensures Published(w, batch, {}, published)
  {
    acks, naks, published := [], unparsed, [];
    var todo := resultByID.Keys;
    NothingDone(w, batch, resultByID);
    while todo != {}
      invariant todo <= resultByID.Keys && NoRepeats(naks) && NoRepeats(acks)
      invariant forall k: nat :: k in naks <==> k in unparsed || (Done(w, batch, todo, k) && !Served(w, batch, k))
      invariant forall k: nat :: k in acks <==> Done(w, batch, todo, k) && Served(w, batch, k)
      invariant Published(w, batch, todo, published)
      decreases todo
    {
      var id :| id in todo;
      DoneWithout(w, batch, resultByID, todo, id);
      var k := resultByID[id];
      if id !in w.rows.value {
        naks := naks + [k];
      } else {
        var n := w.rows.value[id];
        var reply := w.publish(k);
        if Stores(reply) {
          var p := Publication(k, TopicByPriority(n.priority), ReadyEventFor(w, id, n));
          MessagesAppend(published, p);
          published := published + [p];
        }
        if reply.Confirmed? {
          acks := acks + [k];
        } else {
          naks := naks + [k];
        }
      }
      todo := todo - {id};
    }
  }

  /** The indices of the messages acked and nak'ed, and what is published. A message is acked
      exactly when the ready event of its id was published through it; one that another
      message of the batch shadows is neither acked nor nak'ed. */
  method HandleBatch(batch: seq<string>, w: World)
    returns (acks: seq<nat>, naks: seq<nat>, published: seq<Publication>)
    ensures Settled(w, batch, acks, naks)
    ensures Published(w, batch, {}, published)
  {
    acks, published := [], [];
    var resultByID;
    resultByID, naks := IndexBatch(batch, w);
    NothingDone(w, batch, resultByID);
    if resultByID == map[] {
      return;
    }
    if w.rows.None? {
      naks := NakAll(batch, w, resultByID, naks);
    } else {
      acks, naks, published := FanOut(batch, w, resultByID, naks);
    }
  }

  // ------------------------------------------------------------------------ accounting

  function Unparsed(w: World, batch: seq<string>): set<nat> {
    set k: nat | k < |batch| && w.parse(batch[k]).None?
  }

  function Elements(s: seq<nat>): set<nat> { set k | k in s }

  lemma {:induction false} SizeOfSeq(s: seq<nat>)
    requires NoRepeats(s)
    ensures |Elements(s)| == |s|
  {
    if s == [] {
    } else {
      var init := s[..|s| - 1];
      SizeOfSeq(init);
      assert Elements(s) == Elements(init) + {s[|s| - 1]};
    }
  }

  lemma {:induction false} IndexOf(w: World, batch: seq<string>) returns (byID: map<Uuid, nat>)
    ensures Entries(w, batch, byID)
    decreases |batch|
  {
    if batch == [] {
      byID := map[];
    } else {
      var i := |batch| - 1;
      byID := IndexOf(w, batch[..i]);
      EntriesAppend(w, batch, i, byID);
      assert batch[..i + 1] == batch;
      if w.parse(batch[i]).Some? { byID := byID[w.parse(batch[i]).value := i]; }
    }
  }

  lemma {:induction false} SameSizeOn(byID: map<Uuid, nat>, ids: set<Uuid>)
    requires ids <= byID.Keys
    requires forall i, j | i in byID && j in byID && i != j :: byID[i] != byID[j]
    ensures |set id | id in ids :: byID[id]| == |ids|
    decreases |ids|
  {
    if ids == {} {
    } else {
      var id :| id in ids;
      SameSizeOn(byID, ids - {id});
      assert (set i | i in ids :: byID[i]) == (set i | i in ids - {id} :: byID[i]) + {byID[id]};
    }
  }

  lemma SameSize(byID: map<Uuid, nat>, speakers: set<nat>, w: World, batch: seq<string>)
    requires Entries(w, batch, byID)
    requires speakers == set k: nat | k < |batch| && Speaks(w, batch, k)
    ensures |speakers| == |byID.Keys|
  {
    SameSizeOn(byID, byID.Keys);
    forall k | k in speakers ensures k in (set id | id in byID.Keys :: byID[id]) {
      SpeakerIsEntry(w, batch, byID, k);
    }
    assert speakers == set id | id in byID.Keys :: byID[id];
  }

  /** Each id of the batch has exactly one message that speaks for it. */
  lemma SpeakersPerId(w: World, batch: seq<string>, speakers: set<nat>)
    requires speakers == set k: nat | k < |batch| && Speaks(w, batch, k)
    ensures |speakers| == |Parsed(w, batch)|
  {
    var byID := IndexOf(w, batch);
    SameSize(byID, speakers, w, batch);
  }

  /** Acks and Naks together are one for each unparseable message and one for each id. */
  lemma SettlementCount(w: World, batch: seq<string>, acks: seq<nat>, naks: seq<nat>)
    requires Settled(w, batch, acks, naks)
    ensures |acks| + |naks| == |Unparsed(w, batch)| + |Parsed(w, batch)|
  {
    var speakers := set k: nat | k < |batch| && Speaks(w, batch, k);
    SizeOfSeq(acks);
    SizeOfSeq(naks);
    assert Elements(acks) !! Elements(naks);
    assert Elements(acks) + Elements(naks) == Unparsed(w, batch) + speakers;
    assert Unparsed(w, batch) !! speakers;
    SpeakersPerId(w, batch, speakers);
  }

  lemma OnlyZero(s: seq<nat>)
    requires NoRepeats(s) && forall k | k in s :: k == 0
    ensures s == if 0 in s then [0] else []
  {
    SizeOfSeq(s);
    assert Elements(s) == if 0 in s then {0} else {};
  }

  lemma SamePublication(w: World, batch: seq<string>, published: seq<Publication>, k: nat,
                        alone: World, published1: seq<Publication>, p: Publication)
    requires Published(w, batch, {}, published) && p.message == k < |batch|
    requires alone == w.(publish := alone.publish) && alone.publish(0) == w.publish(k)
    requires Published(alone, [batch[k]], {}, published1)
    requires MessagesOf(published1) == if k in MessagesOf(published) then [0] else []
    ensures p in published <==> published1 == [p.(message := 0)]
  {
    var messages, messages1 := MessagesOf(published), MessagesOf(published1);
    if k in messages {
      var j :| 0 <= j < |messages| && messages[j] == k;
      assert messages1[0] == 0;
      assert PublishedFor(w, batch, published[j]) && PublishedFor(alone, [batch[k]], published1[0]);
      assert published[j] == published1[0].(message := k);
      assert p in published ==> exists q :: 0 <= q < |published| && published[q] == p && messages[q] == k;
    } else {
      forall q | 0 <= q < |published| ensures published[q] != p { assert messages[q] in messages; }
    }
  }

  /** The bulk handler refines the handler of one message: a message that is not shadowed is
      acked, nak'ed and published for exactly as if it were the whole batch, fetched alone. */
  lemma BulkIsOneByOne(w: World, batch: seq<string>, acks: seq<nat>, naks: seq<nat>, published: seq<Publication>,
                       k: nat, acks1: seq<nat>, naks1: seq<nat>, published1: seq<Publication>)
    requires Settled(w, batch, acks, naks) && Published(w, batch, {}, published)
    requires k < |batch| && (w.parse(batch[k]).None? || Speaks(w, batch, k))
    requires var alone := w.(publish := _ => w.publish(k));
             Settled(alone, [batch[k]], acks1, naks1) && Published(alone, [batch[k]], {}, published1)
    ensures k in acks <==> acks1 == [0]
    ensures k in naks <==> naks1 == [0]
    ensures |published1| <= 1
    ensures forall topic, event ::
              Publication(k, topic, event) in published <==> published1 == [Publication(0, topic, event)]
  {
    var alone := w.(publish := _ => w.publish(k));
    var single := [batch[k]];
    assert Rejected(alone, single, 0) <==> Rejected(w, batch, k);
    assert Done(w, batch, {}, k) <==> Done(alone, single, {}, 0);
    OnlyZero(acks1);
    OnlyZero(naks1);
    OnlyZero(MessagesOf(published1));
    forall topic, event
      ensures Publication(k, topic, event) in published <==> published1 == [Publication(0, topic, event)]
    {
      SamePublication(w, batch, published, k, alone, published1, Publication(k, topic, event));
    }
  }

  /** With distinct ids no message is shadowed, so all of them are handled as if alone. */
  lemma DistinctBatchIsOneByOne(w: World, batch: seq<string>, acks: seq<nat>, naks: seq<nat>,
                                published: seq<Publication>,
                                k: nat, acks1: seq<nat>, naks1: seq<nat>, published1: seq<Publication>)
    requires Settled(w, batch, acks, naks) && Published(w, batch, {}, published) && k < |batch|
    requires forall i, j | 0 <= i < j < |batch| && w.parse(batch[i]).Some? :: w.parse(batch[i]) != w.parse(batch[j])
    requires var alone := w.(publish := _ => w.publish(k));
             Settled(alone, [batch[k]], acks1, naks1) && Published(alone, [batch[k]], {}, published1)
    ensures (k in acks <==> acks1 == [0]) && (k in naks <==> naks1 == [0])
    ensures forall topic, event ::
              Publication(k, topic, event) in published <==> published1 == [Publication(0, topic, event)]
  {
    BulkIsOneByOne(w, batch, acks, naks, published, k, acks1, naks1, published1);
  }

  /** A message that a later one of the batch shadows gets nothing: no Ack, no Nak, no event. */
  lemma ShadowedGetsNothing(w: World, batch: seq<string>, acks: seq<nat>, naks: seq<nat>,
                            published: seq<Publication>, j: nat, k: nat)
    requires Settled(w, batch, acks, naks) && Published(w, batch, {}, published)
    requires j < k < |batch| && w.parse(batch[j]).Some? && w.parse(batch[j]) == w.parse(batch[k])
    ensures j !in acks && j !in naks
    ensures forall topic, event :: Publication(j, topic, event) !in published
  {
    forall p | 0 <= p < |published| ensures published[p].message != j {
      assert MessagesOf(published)[p] in MessagesOf(published);
    }
  }

  /** Whatever the batch, at most one ready event is published for each id. */
  lemma OnePublicationPerId(w: World, batch: seq<string>, published: seq<Publication>, p: nat, q: nat)
    requires Published(w, batch, {}, published) && p < |published| && q < |published|
    requires published[p].message < |batch| && published[q].message < |batch|
    requires w.parse(batch[published[p].message]) == w.parse(batch[published[q].message])
    ensures p == q
  {
    var messages := MessagesOf(published);
    assert messages[p] in messages && messages[q] in messages;
    assert Speaks(w, batch, messages[p]) && Speaks(w, batch, messages[q]);
  }

  /** Acked means published; the converse fails exactly for the publishes whose reply was
      lost: those are stored and nak'ed, so the event will be published again. */
  lemma AckedIffConfirmed(w: World, batch: seq<string>, acks: seq<nat>, naks: seq<nat>,
                          published: seq<Publication>, k: nat)
    requires Settled(w, batch, acks, naks) && Published(w, batch, {}, published)
    ensures k in acks <==> k in MessagesOf(published) && w.publish(k).Confirmed?
    ensures k in MessagesOf(published) && k !in acks ==> k in naks
  {
  }
}
