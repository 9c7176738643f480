/**
 The server's transcript after one reader run: dedup by step key
 (omnigent/antigravity_native_reader.py) together with no retry after an
 ambiguous failure (omnigent/_native_post_delivery.py).
 */
module Transcript {
  import opened Common
  import opened Steps
  import opened Mapper
  import opened Mirror
  import opened Delivery
  import opened Reader

  const POST_MAX_ATTEMPTS := 3
  const POST_RETRY_STATUS_CODES := {408, 409, 425, 429, 500, 502, 503, 504}

  /** A schedule of POST outcomes: for each post of the run, for each attempt. */
  type Network = nat -> (int -> Outcome)

  // -------------------------------------------------- what the server commits

  /** The receipts of post `n`. */
  function ReceiptsOf(e: Event, n: nat, net: Network): (receipts: seq<Receipt>) {
    Repeat(Receipt(n, e), CommitCount(IsItem(e), POST_MAX_ATTEMPTS, POST_RETRY_STATUS_CODES, net(n), 1))
  }

  function LogOf(posts: seq<Event>, net: Network): (log: seq<Receipt>) {
    if posts == [] then [] else
      LogOf(posts[..|posts| - 1], net) + ReceiptsOf(posts[|posts| - 1], |posts| - 1, net)
  }

  /** The receipts of a commit log that are conversation items, as the transcript shows them. */
  function Items(log: seq<Receipt>): (items: seq<Receipt>) {
    if log == [] then [] else
      Items(log[..|log| - 1]) + if IsItem(log[|log| - 1].event) then [log[|log| - 1]] else []
  }

  method Forward(server: Server, posts: seq<Event>, net: Network)
    modifies server
    ensures server.log == old(server.log) + LogOf(posts, net)
  {
    ghost var start := server.log;
    TakeAll(start, LogOf(posts, net));
    for n := 0 to |posts|
      invariant server.log == start + LogOf(posts[..n], net)
    {
      assert posts[..n + 1][..n] == posts[..n];
      Assoc(start, LogOf(posts[..n], net), ReceiptsOf(posts[n], n, net));
      var _ := server.PostWithRetry(Receipt(n, posts[n]), POST_MAX_ATTEMPTS, POST_RETRY_STATUS_CODES, net(n));
    }
    assert posts[..|posts|] == posts;
  }

  lemma {:induction false} ItemsConcat(a: seq<Receipt>, b: seq<Receipt>)
    ensures Items(a + b) == Items(a) + Items(b)
  {
    if b == [] {
      assert a + b == a;
    } else {
      ItemsConcat(a, b[..|b| - 1]);
      assert (a + b)[..|a + b| - 1] == a + b[..|b| - 1];
    }
  }

  lemma {:induction false} ItemsOfReceipts(e: Event, n: nat, net: Network)
    ensures Items(ReceiptsOf(e, n, net)) == [] || (IsItem(e) && Items(ReceiptsOf(e, n, net)) == [Receipt(n, e)])
  {
    if IsItem(e) {
      ItemCommittedAtMostOnce(POST_MAX_ATTEMPTS, POST_RETRY_STATUS_CODES, net(n), 1);
    } else {
      NoItems(ReceiptsOf(e, n, net));
    }
  }

  lemma {:induction false} NoItems(log: seq<Receipt>)
    requires forall r :: r in log ==> !IsItem(r.event)
    ensures Items(log) == []
  {
    if log != [] {
      NoItems(log[..|log| - 1]);
    }
  }

  /** Each receipt is of its own post, later than the one before, and carries that post's item. */
  ghost predicate InPostOrder(items: seq<Receipt>, posts: seq<Event>) {
    && (forall i :: 0 <= i < |items| ==>
          items[i].post < |posts| && items[i].event == posts[items[i].post] && IsItem(items[i].event))
    && (forall i, j :: 0 <= i < j < |items| ==> items[i].post < items[j].post)
  }

  /** No post commits its item twice, and items are committed in posting order. */
  lemma {:induction false} CommittedItemsInOrder(posts: seq<Event>, net: Network)
    ensures InPostOrder(Items(LogOf(posts, net)), posts)
  {
    if posts != [] {
      var n := |posts| - 1;
      var before, e := posts[..n], posts[n];
      CommittedItemsInOrder(before, net);
      ItemsConcat(LogOf(before, net), ReceiptsOf(e, n, net));
      ItemsOfReceipts(e, n, net);
      PostOrderSnoc(Items(LogOf(before, net)), before, e, Items(ReceiptsOf(e, n, net)), posts);
    }
  }

  lemma {:induction false} PostOrderSnoc(items: seq<Receipt>, before: seq<Event>, e: Event, more: seq<Receipt>,
                                         posts: seq<Event>)
    requires InPostOrder(items, before) && posts == before + [e]
    requires more == [] || (IsItem(e) && more == [Receipt(|before|, e)])
    ensures InPostOrder(items + more, posts)
  {
    var all := items + more;
    forall i | 0 <= i < |all|
      ensures all[i].post < |posts| && all[i].event == posts[all[i].post] && IsItem(all[i].event)
    {
      assert i < |items| ==> all[i] == items[i];
    }
    forall i, j | 0 <= i < j < |all| ensures all[i].post < all[j].post {
      assert all[i] == items[i];
      assert j < |items| ==> all[j] == items[j];
    }
  }

  // ------------------------------------------------ where each item came from

  /** An item with its origin: the key of its step and its place in that step's output. */
  datatype Origin = Origin(key: Key, place: nat, event: Event)

  function OriginsOf(key: Key, events: seq<Event>): (origins: seq<Origin>)
    ensures |origins| == |events|
    ensures forall i :: 0 <= i < |events| ==> origins[i] == Origin(key, i, events[i])
  {
    seq(|events|, i requires 0 <= i < |events| => Origin(key, i, events[i]))
  }

  /** The mapper's output on the kept steps, in order. */
  function Mapped(env: Env, steps: seq<Step>): (origins: seq<Origin>) {
    if steps == [] then [] else
      var before, s := steps[..|steps| - 1], steps[|steps| - 1];
      Mapped(env, before) + OriginsOf(KeyOf(s), MapStep(env.conversation, s, CoreAfter(env, before).alloc).0)
  }

  function EventsOf(origins: seq<Origin>): (events: seq<Event>)
    ensures |events| == |origins| && forall i :: 0 <= i < |events| ==> events[i] == origins[i].event
  {
    seq(|origins|, i requires 0 <= i < |origins| => origins[i].event)
  }

  lemma {:induction false} PostedItemsAreMapped(env: Env, steps: seq<Step>)
    ensures Select(Item, PostsOf(env, steps)) == EventsOf(Mapped(env, steps))
  {
    if steps != [] {
      var before, s := steps[..|steps| - 1], steps[|steps| - 1];
      var c := CoreAfter(env, before);
      PostedItemsAreMapped(env, before);
      ClassesOfPosts(env, c, s);
      SelectConcat(Item, PostsOf(env, before), Posts(env, c, s));
      EventsOfAppend(Mapped(env, before), KeyOf(s), MapStep(env.conversation, s, c.alloc).0);
    }
  }

  lemma EventsOfAppend(origins: seq<Origin>, key: Key, events: seq<Event>)
    ensures EventsOf(origins + OriginsOf(key, events)) == EventsOf(origins) + events
  {
  }

  ghost predicate OriginsDistinct(origins: seq<Origin>) {
    forall i, j :: 0 <= i < j < |origins| ==> (origins[i].key, origins[i].place) != (origins[j].key, origins[j].place)
  }

  lemma {:induction false} MappedOrigins(env: Env, steps: seq<Step>)
    requires forall i, j :: 0 <= i < j < |steps| ==> KeyOf(steps[i]) != KeyOf(steps[j])
    ensures OriginsDistinct(Mapped(env, steps))
    ensures forall o :: o in Mapped(env, steps) ==> exists s :: s in steps && KeyOf(s) == o.key
  {
    if steps != [] {
      var before, s := steps[..|steps| - 1], steps[|steps| - 1];
      MappedOrigins(env, before);
      var seen, fresher := Mapped(env, before),
          OriginsOf(KeyOf(s), MapStep(env.conversation, s, CoreAfter(env, before).alloc).0);
      forall o | o in seen ensures o.key != KeyOf(s) {
        var t :| t in before && KeyOf(t) == o.key;
        var i :| 0 <= i < |before| && before[i] == t;
        assert steps[i] == t && KeyOf(steps[i]) != KeyOf(steps[|steps| - 1]);
      }
      DistinctAppend(seen, fresher, KeyOf(s));
      forall o | o in Mapped(env, steps) ensures exists t :: t in steps && KeyOf(t) == o.key {
        if o in seen {
          var t :| t in before && KeyOf(t) == o.key;
          assert t in steps;
        } else {
          assert o in fresher && s in steps;
        }
      }
    }
  }

  lemma {:induction false} DistinctAppend(a: seq<Origin>, b: seq<Origin>, key: Key)
    requires OriginsDistinct(a) && (forall o :: o in a ==> o.key != key)
    requires forall i :: 0 <= i < |b| ==> b[i].key == key && b[i].place == i
    ensures OriginsDistinct(a + b)
  {
    forall i, j | 0 <= i < j < |a + b|
      ensures ((a + b)[i].key, (a + b)[i].place) != ((a + b)[j].key, (a + b)[j].place)
    {
      if j < |a| {
        assert (a + b)[i] == a[i] && (a + b)[j] == a[j];
      } else if i < |a| {
        assert (a + b)[i] == a[i] && a[i] in a && (a + b)[j] == b[j - |a|];
      } else {
        assert (a + b)[i] == b[i - |a|] && (a + b)[j] == b[j - |a|];
      }
    }
  }

  // --------------------------------------------- from a receipt to its origin

  /** How many items were posted before post `n`: the place of post `n` among the items. */
  function Place(posts: seq<Event>, n: nat): (k: nat)
    requires n <= |posts|
  {
    |Select(Item, posts[..n])|
  }

  lemma {:induction false} PlaceOfItem(posts: seq<Event>, n: nat)
    requires n < |posts| && IsItem(posts[n])
    ensures Place(posts, n) < |Select(Item, posts)| && Select(Item, posts)[Place(posts, n)] == posts[n]
  {
    var front := posts[..n + 1];
    assert posts == front + posts[n + 1..] && front[..n] == posts[..n];
    SelectConcat(Item, front, posts[n + 1..]);
    assert Select(Item, front) == Select(Item, posts[..n]) + [posts[n]];
  }

  lemma {:induction false} PlaceGrows(posts: seq<Event>, m: nat, n: nat)
    requires m < n <= |posts| && IsItem(posts[m])
    ensures Place(posts, m) < Place(posts, n)
  {
    var front := posts[..n];
    assert front[..m] == posts[..m];
    PlaceOfItem(front, m);
  }

  /** The mapped outputs the receipts stand for, found by their post number alone. */
  function Committed(posts: seq<Event>, mapped: seq<Origin>, items: seq<Receipt>): (origins: seq<Origin>)
    requires forall i :: 0 <= i < |items| ==> items[i].post < |posts| && Place(posts, items[i].post) < |mapped|
    ensures |origins| == |items|
    ensures forall i :: 0 <= i < |items| ==> origins[i] == mapped[Place(posts, items[i].post)]
  {
    seq(|items|, i requires 0 <= i < |items| => mapped[Place(posts, items[i].post)])
  }

  /**
   Every committed item is one of the mapped outputs and carries its contents, the
   outputs are taken in order, and no two committed items share an origin.
   */
  ghost predicate Transcribes(posts: seq<Event>, mapped: seq<Origin>, items: seq<Receipt>) {
    && InPostOrder(items, posts)
    && (forall i :: 0 <= i < |items| ==> Place(posts, items[i].post) < |mapped|)
    && var origins := Committed(posts, mapped, items);
    && (forall i :: 0 <= i < |items| ==> origins[i].event == items[i].event)
    && IsSubsequence(origins, mapped)
    && OriginsDistinct(origins)
  }

  lemma {:induction false} ReceiptsHaveOrigins(posts: seq<Event>, mapped: seq<Origin>, items: seq<Receipt>)
    requires InPostOrder(items, posts) && Select(Item, posts) == EventsOf(mapped) && OriginsDistinct(mapped)
    ensures Transcribes(posts, mapped, items)
  {
    forall i | 0 <= i < |items|
      ensures Place(posts, items[i].post) < |mapped| && mapped[Place(posts, items[i].post)].event == items[i].event
    {
      PlaceOfItem(posts, items[i].post);
    }
    var origins := Committed(posts, mapped, items);
    var pick := seq(|items|, i requires 0 <= i < |items| => Place(posts, items[i].post));
    forall i, j | 0 <= i < j < |pick| ensures pick[i] < pick[j] {
      PlaceGrows(posts, items[i].post, items[j].post);
    }
    assert Picks(pick, origins, mapped);
    SelectionDistinct(origins, mapped, pick);
  }

  lemma {:induction false} SelectionDistinct(origins: seq<Origin>, mapped: seq<Origin>, pick: seq<int>)
    requires OriginsDistinct(mapped) && Picks(pick, origins, mapped)
    ensures OriginsDistinct(origins)
  {
    forall i, j | 0 <= i < j < |origins|
      ensures (origins[i].key, origins[i].place) != (origins[j].key, origins[j].place)
    {
      assert pick[i] < pick[j];
    }
  }

  /**
   Server transcript safety. For every sequence of stream and poll sightings and
   every schedule of HTTP failures, the conversation items the server commits are
   an in-order, never-repeated selection from the mapper's output on the first
   settled sighting of each step key: no two of them share a step key and place.
   */
  lemma {:induction false} TranscriptSafety(env: Env, h: History, net: Network)
    ensures var posts := PostsOf(env, Kept(h));
            Transcribes(posts, Mapped(env, Kept(h)), Items(LogOf(posts, net)))
  {
    CommittedItemsInOrder(PostsOf(env, Kept(h)), net);
    PostedItemsAreMapped(env, Kept(h));
    KeptKeys(h);
    MappedOrigins(env, Kept(h));
    ReceiptsHaveOrigins(PostsOf(env, Kept(h)), Mapped(env, Kept(h)), Items(LogOf(PostsOf(env, Kept(h)), net)));
  }

  // ------------------------------------------------------------ completeness

  /** The retry loop gets the item committed on this network. */
  predicate Lands(net: int -> Outcome) {
    CommitCount(true, POST_MAX_ATTEMPTS, POST_RETRY_STATUS_CODES, net, 1) > 0
  }

  /** A status after which the reader tries again. */
  predicate IsTransient(status: int) {
    status in {408, 409, 425, 429, 500, 502, 503, 504}
  }

  /**
   An item lands exactly when one of three attempts commits and every earlier one was a
   transient status or never connected.
   */
  lemma {:induction false} LandsIff(net: int -> Outcome)
    ensures Lands(net) <==>
            exists k :: 1 <= k <= 3 && Commits(net(k)) && forall j :: 1 <= j < k ==>
              (net(j).Response? && IsTransient(net(j).status)) || (net(j).Raised? && NeverConnected(net(j).error))
  {
    LandsFrom(POST_MAX_ATTEMPTS, POST_RETRY_STATUS_CODES, net, 1);
    forall o: Outcome
      ensures TryAgain(true, POST_RETRY_STATUS_CODES, o) <==>
              (o.Response? && IsTransient(o.status)) || (o.Raised? && NeverConnected(o.error))
    {
    }
    if Lands(net) {
      var k :| k <= POST_MAX_ATTEMPTS && LandsAt(POST_RETRY_STATUS_CODES, net, 1, k);
      assert 1 <= k <= 3 && Commits(net(k));
    }
    forall k | 1 <= k <= 3 && Commits(net(k)) && forall j :: 1 <= j < k ==>
      (net(j).Response? && IsTransient(net(j).status)) || (net(j).Raised? && NeverConnected(net(j).error))
      ensures Lands(net)
    {
      assert LandsAt(POST_RETRY_STATUS_CODES, net, 1, k);
    }
  }

  ghost predicate AllItemsLand(posts: seq<Event>, net: Network) {
    forall n: nat :: n < |posts| && IsItem(posts[n]) ==> Lands(net(n))
  }

  /** The server has at most one receipt per item post, and all of them exactly when every one lands. */
  lemma {:induction false} LandedItems(posts: seq<Event>, net: Network)
    ensures |Items(LogOf(posts, net))| <= |Select(Item, posts)|
    ensures |Items(LogOf(posts, net))| == |Select(Item, posts)| <==> AllItemsLand(posts, net)
  {
    if posts != [] {
      var n := |posts| - 1;
      var before, e := posts[..n], posts[n];
      LandedItems(before, net);
      ItemsConcat(LogOf(before, net), ReceiptsOf(e, n, net));
      LandsOnce(e, n, net);
      assert AllItemsLand(posts, net) <==> AllItemsLand(before, net) && (IsItem(e) ==> Lands(net(n))) by {
        assert forall m: nat :: m < n ==> before[m] == posts[m];
      }
    }
  }

  lemma {:induction false} LandsOnce(e: Event, n: nat, net: Network)
    ensures |Items(ReceiptsOf(e, n, net))| == if IsItem(e) && Lands(net(n)) then 1 else 0
  {
    var receipts := ReceiptsOf(e, n, net);
    if IsItem(e) {
      ItemCommittedAtMostOnce(POST_MAX_ATTEMPTS, POST_RETRY_STATUS_CODES, net(n), 1);
      if receipts != [] {
        assert receipts == [Receipt(n, e)] && Items([]) + [Receipt(n, e)] == [Receipt(n, e)];
      }
    } else {
      NoItems(receipts);
    }
  }

  /**
   The other half of transcript safety: the server ends up with the mapper's whole
   output on first settled sightings if and only if every item post lands.
   */
  lemma {:induction false} TranscriptCompleteIff(env: Env, h: History, net: Network)
    ensures var posts := PostsOf(env, Kept(h));
            Transcribes(posts, Mapped(env, Kept(h)), Items(LogOf(posts, net)))
    ensures var posts := PostsOf(env, Kept(h));
            Committed(posts, Mapped(env, Kept(h)), Items(LogOf(posts, net))) == Mapped(env, Kept(h)) <==>
            AllItemsLand(posts, net)
  {
    var posts, mapped := PostsOf(env, Kept(h)), Mapped(env, Kept(h));
    TranscriptSafety(env, h, net);
    PostedItemsAreMapped(env, Kept(h));
    LandedItems(posts, net);
    if AllItemsLand(posts, net) {
      FullSubsequence(Committed(posts, mapped, Items(LogOf(posts, net))), mapped);
    }
  }

  /** One reader run end to end: observe, post, and let the network do its worst. */
  method MirrorRun(env: Env, observations: History, net: Network) returns (posts: seq<Event>, log: seq<Receipt>)
    ensures posts == PostsOf(env, Kept(observations)) && log == LogOf(posts, net)
    ensures Transcribes(posts, Mapped(env, Kept(observations)), Items(log))
    ensures Committed(posts, Mapped(env, Kept(observations)), Items(log)) == Mapped(env, Kept(observations)) <==>
            AllItemsLand(posts, net)
  {
    posts := MirrorPosts(env, observations);
    var server := new Server();
    Forward(server, posts, net);
    log := server.log;
    TranscriptCompleteIff(env, observations, net);
  }
}
