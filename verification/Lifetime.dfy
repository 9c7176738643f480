/**
 A whole `run_reader_with_bridge` life (omnigent/antigravity_native_reader.py): dedup is
 per pass, so an item can reach the server once for every pass that serves its cascade,
 and after a failed rotation it does so again.
 */
module Lifetime {
  import opened Common
  import opened Steps
  import opened Mapper
  import opened Mirror
  import opened Delivery
  import opened Transcript
  import Rotation

  /** One pass of the loop: what rotation saw, what its reader saw, and what the network did. */
  datatype Served = Served(pass: Rotation.Pass, env: Env, history: History, net: Network)

  /** What one pass's reader got committed, by origin. */
  ghost function CommittedBy(s: Served): (origins: seq<Origin>)
    ensures OriginsDistinct(origins) && |origins| == |Items(LogOf(PostsOf(s.env, Kept(s.history)), s.net))|
  {
    var posts := PostsOf(s.env, Kept(s.history));
    TranscriptSafety(s.env, s.history, s.net);
    Committed(posts, Mapped(s.env, Kept(s.history)), Items(LogOf(posts, s.net)))
  }

  /** A step's item, whichever pass posts it. */
  datatype ItemId = ItemId(cascade: string, key: Key, place: nat)

  ghost function CountIn(origins: seq<Origin>, key: Key, place: nat): (n: nat) {
    if origins == [] then 0 else
      var o := origins[|origins| - 1];
      CountIn(origins[..|origins| - 1], key, place) + if o.key == key && o.place == place then 1 else 0
  }

  ghost function CommitsIn(s: Served, id: ItemId): (n: nat) {
    if s.env.conversation == id.cascade then CountIn(CommittedBy(s), id.key, id.place) else 0
  }

  ghost function CommitsOver(served: seq<Served>, id: ItemId): (n: nat) {
    if served == [] then 0 else CommitsOver(served[..|served| - 1], id) + CommitsIn(served[|served| - 1], id)
  }

  /** A pass serves the cascade it is bound to: discovery resolved, and it does not end by adopting another. */
  predicate Serves(p: Rotation.Pass, a: Rotation.Action) {
    p.discovered && !a.Adopt?
  }

  /** How many of the passes served a cascade. */
  function Serving(start: Rotation.Loop, passes: seq<Rotation.Pass>, log: seq<Rotation.Action>,
                   cascade: string): (n: nat)
    requires |log| <= |passes|
  {
    if log == [] then 0 else
      var n := |log| - 1;
      Serving(start, passes, log[..n], cascade) +
      if Rotation.After(start, log[..n]).conversation == cascade && Serves(passes[n], log[n]) then 1 else 0
  }

  /** A reader bound to `cascade` reports as committed the keys it recorded, and reads nothing before discovery. */
  predicate Reads(s: Served, cascade: string) {
    && s.env.conversation == cascade && s.pass.committed == |SettledKeys(s.history)|
    && (!s.pass.discovered ==> s.history == [])
  }

  /** A beginning of a life: the passes justify the actions,
      and each reader mirrors the cascade its pass is bound to. */
  ghost predicate IsLife(start: Rotation.Loop, served: seq<Served>, log: seq<Rotation.Action>) {
    |served| == |log| &&
    (log != [] ==>
       var before, s := log[..|log| - 1], served[|served| - 1];
       var head := Rotation.After(start, before);
       && IsLife(start, served[..|served| - 1], before) && Rotation.Stop !in before
       && Rotation.Justifies(s.pass, head, log[|log| - 1]) && Reads(s, head.conversation))
  }

  /** These passes, up to the number of committed steps each reader reports. */
  ghost predicate Over(passes: seq<Rotation.Pass>, served: seq<Served>) {
    && |served| <= |passes|
    && forall i :: 0 <= i < |served| ==> served[i].pass == passes[i].(committed := served[i].pass.committed)
  }

  lemma {:induction false} CountAtMostOnce(origins: seq<Origin>, key: Key, place: nat)
    requires OriginsDistinct(origins)
    ensures CountIn(origins, key, place) <= 1
    ensures CountIn(origins, key, place) == 1 <==>
            exists i :: 0 <= i < |origins| && origins[i].key == key && origins[i].place == place
  {
    if origins != [] {
      var n := |origins| - 1;
      var before := origins[..n];
      CountAtMostOnce(before, key, place);
      if CountIn(before, key, place) == 1 {
        var i :| 0 <= i < n && before[i].key == key && before[i].place == place;
        assert origins[i] == before[i] && (origins[i].key, origins[i].place) != (origins[n].key, origins[n].place);
      }
      if exists i :: 0 <= i < |origins| && origins[i].key == key && origins[i].place == place {
        var i :| 0 <= i < |origins| && origins[i].key == key && origins[i].place == place;
        assert i < n ==> before[i] == origins[i];
      }
    }
  }

  lemma {:induction false} NothingKept(h: History)
    requires SettledKeys(h) == {}
    ensures Kept(h) == []
  {
    KeptKeys(h);
    assert Kept(h) != [] ==> Kept(h)[0] in Kept(h) && KeyOf(Kept(h)[0]) in SettledKeys(h);
  }

  lemma {:induction false} NothingRecorded(s: Served)
    requires SettledKeys(s.history) == {}
    ensures CommittedBy(s) == []
  {
    NothingKept(s.history);
    assert Items(LogOf([], s.net)) == [];
  }

  /** One pass commits an item at most once, and not at all unless it serves the item's cascade. */
  lemma {:induction false} PassCommits(s: Served, head: Rotation.Loop, a: Rotation.Action, id: ItemId)
    requires Rotation.Justifies(s.pass, head, a) && Reads(s, head.conversation)
    ensures CommitsIn(s, id) <= if head.conversation == id.cascade && Serves(s.pass, a) then 1 else 0
  {
    CountAtMostOnce(CommittedBy(s), id.key, id.place);
    if !Serves(s.pass, a) {
      assert SettledKeys(s.history) == {};
      NothingRecorded(s);
    }
  }

  /** No item is committed more often than there were passes serving its cascade. */
  lemma {:induction false} CommitsBoundedByServing(start: Rotation.Loop, passes: seq<Rotation.Pass>,
                                                   served: seq<Served>,
                                                   log: seq<Rotation.Action>, id: ItemId)
    requires IsLife(start, served, log) && Over(passes, served)
    ensures CommitsOver(served, id) <= Serving(start, passes, log, id.cascade)
  {
    if log != [] {
      var n := |log| - 1;
      assert Over(passes, served[..n]) by {
        assert forall i :: 0 <= i < n ==> served[..n][i] == served[i];
      }
      CommitsBoundedByServing(start, passes, served[..n], log[..n], id);
      PassCommits(served[n], Rotation.After(start, log[..n]), log[n], id);
      assert served[n].pass.discovered == passes[n].discovered;
    }
  }

  /** The binding outlives an action if and only if that action was a failed rotation. */
  lemma {:induction false} BindingStaysIff(p: Rotation.Pass, l: Rotation.Loop, a: Rotation.Action)
    requires Rotation.Justifies(p, l, a) && !a.Stop?
    ensures Rotation.Apply(l, a).conversation == l.conversation <==> a.RotationFails?
  {
    Rotation.NewTarget(p, l, a);
  }

  // ------------------------------------------- a life that commits an item twice

  const HELLO := Step(UserInput, Done, None, Some(0), None, "hello", None, None, None, None, None, None, NoRequest)
  const HELLO_ITEM := Message(User, "hello", None)

  /** A pass that mirrors one user turn over a network that always answers 200. */
  function HelloPass(cascade: string, pass: Rotation.Pass): (s: Served) {
    Served(pass, Env(cascade, map[]), [Polled(HELLO)], (n: nat) => (attempt: int) => Response(200))
  }

  lemma {:induction false} HelloKept()
    ensures Kept([Polled(HELLO)]) == [HELLO] && |SettledKeys([Polled(HELLO)])| == 1
  {
    assert [] + [Polled(HELLO)] == [Polled(HELLO)];
    SettledKeysSnoc([], Polled(HELLO));
    assert SettledKeys([]) == {};
    assert SettledKeys([Polled(HELLO)]) == {KeyOf(HELLO)};
  }

  lemma {:induction false} HelloPosts(env: Env)
    ensures PostsOf(env, [HELLO]) == [SessionStatus(Running), HELLO_ITEM]
    ensures Mapped(env, [HELLO]) == [Origin(KeyOf(HELLO), 0, HELLO_ITEM)]
  {
    assert [HELLO][..0] == [];
    var c := Start(env);
    assert Opening(c.turnActive, HELLO) == [SessionStatus(Running)];
    assert MapStep(env.conversation, HELLO, c.alloc).0 == [HELLO_ITEM];
    assert Posts(env, c, HELLO) == [SessionStatus(Running), HELLO_ITEM];
  }

  lemma {:induction false} HelloLog(net: Network)
    requires forall n: nat, attempt: int :: net(n)(attempt) == Response(200)
    ensures Items(LogOf([SessionStatus(Running), HELLO_ITEM], net)) == [Receipt(1, HELLO_ITEM)]
  {
    var posts := [SessionStatus(Running), HELLO_ITEM];
    assert posts[..1] == [SessionStatus(Running)] && posts[..1][..0] == [];
    assert ReceiptsOf(posts[0], 0, net) == [Receipt(0, posts[0])];
    assert ReceiptsOf(posts[1], 1, net) == [Receipt(1, posts[1])];
    ItemsConcat(LogOf(posts[..1], net), [Receipt(1, posts[1])]);
    assert LogOf(posts[..1], net) == LogOf(posts[..1][..0], net) + [Receipt(0, posts[0])];
    NoItems(LogOf(posts[..1], net));
    assert Items([Receipt(1, posts[1])]) == Items([]) + [Receipt(1, posts[1])];
  }

  /** Such a pass commits the turn's one item. */
  lemma {:induction false} HelloCommitted(cascade: string, pass: Rotation.Pass)
    ensures CommitsIn(HelloPass(cascade, pass), ItemId(cascade, KeyOf(HELLO), 0)) == 1
  {
    var s := HelloPass(cascade, pass);
    HelloKept();
    HelloPosts(s.env);
    HelloLog(s.net);
    var origins := CommittedBy(s);
    assert |origins| == 1;
    TranscriptSafety(s.env, s.history, s.net);
    assert origins[0] in Mapped(s.env, Kept(s.history));
    CountAtMostOnce(origins, KeyOf(HELLO), 0);
  }

  lemma {:induction false} LifeSnoc(start: Rotation.Loop, served: seq<Served>, log: seq<Rotation.Action>, s: Served,
                                    a: Rotation.Action)
    requires IsLife(start, served, log) && Rotation.Stop !in log
    requires Rotation.Justifies(s.pass, Rotation.After(start, log), a)
    requires Reads(s, Rotation.After(start, log).conversation)
    ensures IsLife(start, served + [s], log + [a])
    ensures Rotation.After(start, log + [a]) == Rotation.Apply(Rotation.After(start, log), a)
  {
    assert (served + [s])[..|served|] == served && (log + [a])[..|log|] == log;
  }

  lemma {:induction false} CommitsSnoc(served: seq<Served>, s: Served, id: ItemId)
    ensures CommitsOver(served + [s], id) == CommitsOver(served, id) + CommitsIn(s, id)
  {
    assert (served + [s])[..|served|] == served;
  }

  // ------------------------------------------------------ the bound is attained

  /** The reader of one pass: it mirrors the user turn if the pass serves, and reads nothing settled otherwise. */
  function HelloServed(p: Rotation.Pass, a: Rotation.Action, cascade: string): (s: Served) {
    if Serves(p, a) then HelloPass(cascade, p.(committed := 1))
    else HelloPass(cascade, p.(committed := 0)).(history := [])
  }

  /** A life over the given passes in which every serving reader sees the same user turn. */
  function HelloLife(start: Rotation.Loop, passes: seq<Rotation.Pass>, log: seq<Rotation.Action>): (served: seq<Served>)
    requires |log| <= |passes|
    ensures |served| == |log|
  {
    if log == [] then [] else
      var n := |log| - 1;
      HelloLife(start, passes, log[..n])
          + [HelloServed(passes[n], log[n], Rotation.After(start, log[..n]).conversation)]
  }

  lemma {:induction false} HelloServedReads(p: Rotation.Pass, head: Rotation.Loop, a: Rotation.Action)
    requires Rotation.Justifies(p, head, a)
    ensures var s := HelloServed(p, a, head.conversation);
            && Rotation.Justifies(s.pass, head, a) && Reads(s, head.conversation)
            && s.pass == p.(committed := s.pass.committed)
  {
    HelloKept();
    assert SettledKeys([]) == {};
  }

  lemma {:induction false} HelloServedCommits(p: Rotation.Pass, a: Rotation.Action, bound: string, cascade: string)
    ensures CommitsIn(HelloServed(p, a, bound), ItemId(cascade, KeyOf(HELLO), 0)) ==
            if bound == cascade && Serves(p, a) then 1 else 0
  {
    if Serves(p, a) {
      HelloCommitted(bound, p.(committed := 1));
    } else {
      assert SettledKeys([]) == {};
      NothingRecorded(HelloServed(p, a, bound));
    }
  }

  lemma {:induction false} OverSnoc(passes: seq<Rotation.Pass>, served: seq<Served>, s: Served)
    requires Over(passes, served) && |served| < |passes|
    requires s.pass == passes[|served|].(committed := s.pass.committed)
    ensures Over(passes, served + [s])
  {
    var all := served + [s];
    forall i | 0 <= i < |all| ensures all[i].pass == passes[i].(committed := all[i].pass.committed) {
      assert all[i] == if i < |served| then served[i] else s;
    }
  }

  lemma {:induction false} HelloLifeIsLife(start: Rotation.Loop, passes: seq<Rotation.Pass>, log: seq<Rotation.Action>)
    requires |log| <= |passes| && Rotation.Justified(start, passes, log)
    ensures IsLife(start, HelloLife(start, passes, log), log) && Over(passes, HelloLife(start, passes, log))
  {
    if log != [] {
      var n := |log| - 1;
      HelloLifeIsLife(start, passes, log[..n]);
      HelloLifeSnoc(start, passes, HelloLife(start, passes, log[..n]), log[..n], log[n]);
      assert log == log[..n] + [log[n]];
    }
  }

  lemma {:induction false} HelloLifeSnoc(start: Rotation.Loop, passes: seq<Rotation.Pass>, served: seq<Served>,
                                         before: seq<Rotation.Action>, a: Rotation.Action)
    requires IsLife(start, served, before) && Over(passes, served) && |before| < |passes| && Rotation.Stop !in before
    requires Rotation.Justifies(passes[|before|], Rotation.After(start, before), a)
    ensures var s := HelloServed(passes[|before|], a, Rotation.After(start, before).conversation);
            IsLife(start, served + [s], before + [a]) && Over(passes, served + [s])
  {
    var p, head := passes[|before|], Rotation.After(start, before);
    var s := HelloServed(p, a, head.conversation);
    HelloServedReads(p, head, a);
    LifeSnoc(start, served, before, s, a);
    OverSnoc(passes, served, s);
  }

  lemma {:induction false} HelloLifeCommits(start: Rotation.Loop, passes: seq<Rotation.Pass>, log: seq<Rotation.Action>,
                                            cascade: string)
    requires |log| <= |passes|
    ensures CommitsOver(HelloLife(start, passes, log), ItemId(cascade, KeyOf(HELLO), 0)) ==
            Serving(start, passes, log, cascade)
  {
    if log != [] {
      var n := |log| - 1;
      var bound := Rotation.After(start, log[..n]).conversation;
      HelloLifeCommits(start, passes, log[..n], cascade);
      HelloServedCommits(passes[n], log[n], bound, cascade);
      CommitsSnoc(HelloLife(start, passes, log[..n]), HelloServed(passes[n], log[n], bound),
                  ItemId(cascade, KeyOf(HELLO), 0));
    }
  }

  /** Over every justified log there is a life whose item is committed once per serving pass. */
  lemma {:induction false} ServingAttained(start: Rotation.Loop, passes: seq<Rotation.Pass>, log: seq<Rotation.Action>,
                                           cascade: string)
    requires |log| <= |passes| && Rotation.Justified(start, passes, log)
    ensures IsLife(start, HelloLife(start, passes, log), log) && Over(passes, HelloLife(start, passes, log))
    ensures CommitsOver(HelloLife(start, passes, log), ItemId(cascade, KeyOf(HELLO), 0)) ==
            Serving(start, passes, log, cascade)
  {
    HelloLifeIsLife(start, passes, log);
    HelloLifeCommits(start, passes, log, cascade);
  }

  /** Whatever the readers of these passes see, no item of the cascade is committed twice. */
  ghost predicate NeverTwice(start: Rotation.Loop, passes: seq<Rotation.Pass>, log: seq<Rotation.Action>,
                             cascade: string) {
    forall served, id: ItemId :: IsLife(start, served, log) && Over(passes, served) && id.cascade == cascade ==>
      CommitsOver(served, id) <= 1
  }

  /** At most once over a life if and only if at most one pass served the cascade. */
  lemma {:induction false} NeverTwiceIff(start: Rotation.Loop, passes: seq<Rotation.Pass>, log: seq<Rotation.Action>,
                                         cascade: string)
    requires |log| <= |passes| && Rotation.Justified(start, passes, log)
    ensures NeverTwice(start, passes, log, cascade) <==> Serving(start, passes, log, cascade) <= 1
  {
    ServingAttained(start, passes, log, cascade);
    if Serving(start, passes, log, cascade) <= 1 {
      forall served, id: ItemId | IsLife(start, served, log) && Over(passes, served) && id.cascade == cascade
        ensures CommitsOver(served, id) <= 1
      {
        CommitsBoundedByServing(start, passes, served, log, id);
      }
    } else {
      var served, id := HelloLife(start, passes, log), ItemId(cascade, KeyOf(HELLO), 0);
      assert IsLife(start, served, log) && Over(passes, served) && id.cascade == cascade;
    }
  }

  /** After a failed rotation the next pass serves the same cascade again, and the item is committed twice. */
  lemma {:induction false} FailedRotationCommitsTwice(start: Rotation.Loop, first: Rotation.Pass, second: Rotation.Pass,
                                                      x: string)
    requires second.discovered && Rotation.Justifies(first, start, Rotation.RotationFails(x))
    requires Rotation.Justifies(second, Rotation.Apply(start, Rotation.RotationFails(x)), Rotation.Stop)
    ensures var passes, log := [first, second], [] + [Rotation.RotationFails(x)] + [Rotation.Stop];
            && Rotation.Justified(start, passes, log) && Serving(start, passes, log, start.conversation) == 2
            && CommitsOver(HelloLife(start, passes, log), ItemId(start.conversation, KeyOf(HELLO), 0)) == 2
  {
    var passes, log := [first, second], [] + [Rotation.RotationFails(x)] + [Rotation.Stop];
    Rotation.JustifiedSnoc(start, passes, [], Rotation.RotationFails(x));
    Rotation.JustifiedSnoc(start, passes, [] + [Rotation.RotationFails(x)], Rotation.Stop);
    assert log[..1] == [] + [Rotation.RotationFails(x)] && log[..1][..0] == [];
    assert Serving(start, passes, log[..1], start.conversation) == 1;
    ServingAttained(start, passes, log, start.conversation);
  }

  /** There are such passes: a newer sibling shows up, and the session for it cannot be created. */
  lemma {:induction false} FailedRotationHappens(start: Rotation.Loop, x: string)
    returns (first: Rotation.Pass, second: Rotation.Pass)
    requires x != start.conversation && x !in start.failed
    ensures second.discovered && Rotation.Justifies(first, start, Rotation.RotationFails(x))
    ensures Rotation.Justifies(second, Rotation.Apply(start, Rotation.RotationFails(x)), Rotation.Stop)
  {
    var entries := [Rotation.Entry(start.conversation, Rotation.Summary(true, None, Some(0))),
                    Rotation.Entry(x, Rotation.Summary(true, None, Some(1)))];
    first := Rotation.Pass(true, [Rotation.Fetched(entries)], 1, None);
    second := Rotation.Pass(true, [], 1, None);
    assert Rotation.Newest(entries, start.conversation, 1);
    assert entries[0].id == start.conversation;
    assert Rotation.BoundOlder(entries, start.conversation, 1);
    assert Rotation.Calls(first.polls[0], start.conversation, start.failed, x);
    assert Rotation.Quiet(first.polls[..0], start.conversation, start.failed);
  }
}
