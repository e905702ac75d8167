/**
  Concrete runs of the store and of the update check, taken from the repository's tests
  (SubscriptionManagerTest.kt, IssueUpdateServiceTest.kt, NotificationServiceTest.kt) and
  derived from the general lemmas.  Where a test expects something the code does not do
  (those tests are disabled in the repository), the lemma states what the code does.
*/
module Scenarios {
  import opened Wrappers
  import opened LinkedMaps
  import opened Subscriptions
  import opened Updates
  import opened UpdateProperties

  // ---------------------------------------------------------------------------
  // Evaluation on small literals

  lemma IndexOfOne<K, V>(a: (K, V), k: K)
    ensures IndexOf([a], k) == if a.0 == k then Some(0) else None
  {
    assert [a][..0] == [];
  }

  lemma IndexOfTwo<K, V>(a: (K, V), b: (K, V), k: K)
    ensures IndexOf([a, b], k) == if a.0 == k then Some(0) else if b.0 == k then Some(1) else None
  {
    assert [a, b][..1] == [a];
    IndexOfOne(a, k);
  }

  lemma ConcatMapOne<A, B>(f: A -> seq<B>, x: A)
    ensures ConcatMap(f, [x]) == f(x)
  {
    assert [x][..0] == [];
    assert [] + f(x) == f(x);
  }

  lemma FilteredTwo(labels: seq<string>, a: Issue, b: Issue)
    ensures Filtered(labels, [a, b]) ==
      (if Matches(labels, a) then [a] else []) + (if Matches(labels, b) then [b] else [])
  {
    assert [a, b][..1] == [a];
    assert [a][..0] == [];
    var fa := if Matches(labels, a) then [a] else [];
    assert Filtered(labels, [a]) == [] + fa;
    assert [] + fa == fa;
  }

  lemma LiftTwo<K, V>(k: K, a: V, b: V)
    ensures Lift(k, [a, b]) == [(k, a), (k, b)]
  {
    assert [a, b][..1] == [a];
    assert [a][..0] == [];
    assert Lift(k, [a]) == [] + [(k, a)];
  }

  /** Subscribing a chat the store has not seen appends a new chat entry. */
  lemma AddedNewChat(t: Table, c: Int64, r: string, labels: seq<string>)
    requires c !in Keys(t.chats)
    ensures t.Added(c, r, labels) == Table(t.chats + [(c, [(r, Subscription(c, r, labels, None))])])
  {
    assert Put<string, Subscription>([], r, Subscription(c, r, labels, None)) == [(r, Subscription(c, r, labels, None))];
  }

  /** Subscribing the one chat of the store again to its one repository replaces the subscription. */
  lemma AddedSameOnly(c: Int64, r: string, s: Subscription, labels: seq<string>)
    ensures Table([(c, [(r, s)])]).Added(c, r, labels) == Table([(c, [(r, Subscription(c, r, labels, None))])])
  {
    var s' := Subscription(c, r, labels, None);
    IndexOfOne((c, [(r, s)]), c);
    IndexOfOne((r, s), r);
    assert Put([(r, s)], r, s') == [(r, s')];
    assert Put([(c, [(r, s)])], c, [(r, s')]) == [(c, [(r, s')])];
  }

  // ---------------------------------------------------------------------------
  // The store (SubscriptionManagerTest.kt)

  /** Subscribing once lists one subscription, to the named repository. */
  lemma AddThenList()
    ensures |Table([]).Added(1, "repo1", []).GetUserSubscriptions(1)| == 1
    ensures Table([]).Added(1, "repo1", []).GetUserSubscriptions(1)[0].repository == "repo1"
  {
    var t := Table([]).Added(1, "repo1", []);
    AddedIsUpsert(Table([]), 1, "repo1", []);
    UserSubscriptionsSpec(t, 1);
    AllSubscriptionsSpec(t);
    var s := t.GetUserSubscriptions(1)[0];
    assert t.GetSubscription(1, s.repository) == Some(s);
  }

  /** Subscribing again to the same repository replaces the labels and keeps one subscription. */
  lemma ResubscribeOverwrites()
    ensures Table([]).Added(1, "repo1", ["label1"]).Added(1, "repo1", ["label2"]).GetUserSubscriptions(1)
      == [Subscription(1, "repo1", ["label2"], None)]
  {
    var s, s' := Subscription(1, "repo1", ["label1"], None), Subscription(1, "repo1", ["label2"], None);
    AddedNewChat(Table([]), 1, "repo1", ["label1"]);
    assert Table([]).Added(1, "repo1", ["label1"]) == Table([(1, [("repo1", s)])]);
    AddedSameOnly(1, "repo1", s, ["label2"]);
    IndexOfOne((1 as Int64, [("repo1", s')]), 1);
  }

  /** Removing a stored subscription reports it and empties the chat; removing from an empty store reports nothing. */
  lemma RemoveReports()
    ensures Table([]).Added(1, "repo1", []).HasSubscription(1, "repo1")
    ensures Table([]).Added(1, "repo1", []).Removed(1, "repo1").GetUserSubscriptions(1) == []
    ensures !Table([]).HasSubscription(1, "repo1")
  {
    var t := Table([]).Added(1, "repo1", []);
    AddedIsUpsert(Table([]), 1, "repo1", []);
    HasIffGet(t, 1, "repo1");
    RemovedSpec(t, 1, "repo1");
  }

  /** `updateLastChecked` sets the watermark of the named pair and leaves the chat's other repository alone. */
  lemma UpdateTouchesOnePair()
    ensures Table([]).Added(1, "repo1", []).Added(1, "repo2", []).WithWatermark(1, "repo1", 100)
      .GetSubscription(1, "repo1") == Some(Subscription(1, "repo1", [], Some(100)))
    ensures Table([]).Added(1, "repo1", []).Added(1, "repo2", []).WithWatermark(1, "repo1", 100)
      .GetSubscription(1, "repo2") == Some(Subscription(1, "repo2", [], None))
  {
    var t1 := Table([]).Added(1, "repo1", []);
    var t2 := t1.Added(1, "repo2", []);
    AddedIsUpsert(Table([]), 1, "repo1", []);
    AddedIsUpsert(t1, 1, "repo2", []);
    WithWatermarkSpec(t2, 1, "repo1", 100);
  }

  /** `getAllSubscriptions` lists the subscriptions of every chat. */
  lemma AllSubscriptionsOfTwoChats()
    ensures Table([]).Added(1, "repo1", []).Added(2, "repo2", []).GetAllSubscriptions() ==
      [Subscription(1, "repo1", [], None), Subscription(2, "repo2", [], None)]
  {
    var s1, s2 := Subscription(1, "repo1", [], None), Subscription(2, "repo2", [], None);
    AddedNewChat(Table([]), 1, "repo1", []);
    var t1 := Table([]).Added(1, "repo1", []);
    assert t1 == Table([(1, [("repo1", s1)])]);
    IndexOfOne((1 as Int64, [("repo1", s1)]), 2);
    AddedNewChat(t1, 2, "repo2", []);
    assert t1.Added(2, "repo2", []) == Table([(1, [("repo1", s1)]), (2, [("repo2", s2)])]);
  }

  // ---------------------------------------------------------------------------
  // Update runs (IssueUpdateServiceTest.kt)

  const first := Issue(1, ["bug"], "url")
  const second := Issue(2, ["feature"], "url")

  /** A fetch that returns `issues` for `repo` and fails for every other repository. */
  function Serving(repo: string, issues: seq<Issue>): Fetch {
    (r: string, since: Int32) => if r == repo then Some(issues) else None
  }

  lemma ServedFetch(t: Table, repo: string, issues: seq<Issue>)
    ensures Fetched(t, Serving(repo, issues), repo) == Some(issues)
  {
  }

  /** A store of two chats, each subscribed to the same one repository. */
  function PairStore(s1: Subscription, s2: Subscription): Table {
    Table([(s1.chatId, [(s1.repository, s1)]), (s2.chatId, [(s2.repository, s2)])])
  }

  lemma PairStoreValid(s1: Subscription, s2: Subscription)
    requires s1.chatId != s2.chatId
    ensures PairStore(s1, s2).Valid()
  {
  }

  lemma PairStoreAll(s1: Subscription, s2: Subscription)
    ensures PairStore(s1, s2).GetAllSubscriptions() == [s1, s2]
  {
    var t := PairStore(s1, s2);
    assert t.chats[..1] == [t.chats[0]];
    assert t.chats[..1][..0] == [];
    assert Values([(s1.repository, s1)]) == [s1];
    assert Values([(s2.repository, s2)]) == [s2];
    assert FlatValues(t.chats[..1]) == [] + [s1];
  }

  lemma PairStoreSpec(s1: Subscription, s2: Subscription, c: Int64)
    requires s1.chatId != s2.chatId && s1.repository == s2.repository
    ensures PairStore(s1, s2).GetSubscription(c, s1.repository) ==
      if c == s1.chatId then Some(s1) else if c == s2.chatId then Some(s2) else None
  {
    var t := PairStore(s1, s2);
    IndexOfTwo(t.chats[0], t.chats[1], c);
    IndexOfOne((s1.repository, s1), s1.repository);
    IndexOfOne((s2.repository, s2), s2.repository);
  }

  lemma AppendToEmpty<K, V>(k: K, xs: seq<V>)
    ensures Append([], k, xs) == [(k, xs)]
  {
    assert [] + xs == xs;
  }

  lemma AppendToOne<K, V>(k: K, xs: seq<V>, ys: seq<V>)
    ensures Append([(k, xs)], k, ys) == [(k, xs + ys)]
  {
    IndexOfOne((k, xs), k);
  }

  /** Two subscriptions to one repository form one group. */
  lemma GroupTwo(s1: Subscription, s2: Subscription)
    requires s1.repository == s2.repository
    ensures GroupByRepo([s1, s2]) == [(s1.repository, [s1, s2])]
  {
    var r := s1.repository;
    var kvs := ByRepository([s1, s2]);
    assert kvs == [(r, [s1]), (r, [s2])];
    assert AppendAll([], kvs[..1]) == [(r, [s1])] by {
      assert kvs[..1] == [(r, [s1])];
      assert [(r, [s1])][..0] == [];
      AppendToEmpty(r, [s1]);
    }
    AppendToOne(r, [s1], [s2]);
    assert [s1] + [s2] == [s1, s2];
  }

  lemma RepoSubsTwo(s1: Subscription, s2: Subscription)
    requires s1.repository == s2.repository
    ensures RepoSubs([s1, s2], s1.repository) == [s1, s2]
  {
    assert [s1, s2][..1] == [s1];
    assert [s1][..0] == [];
    assert RepoSubs([s1], s1.repository) == [] + [s1];
  }

  /** Both subscriptions form the one group of the run. */
  lemma PairStoreGroup(s1: Subscription, s2: Subscription)
    requires s1.chatId != s2.chatId && s1.repository == s2.repository
    ensures Repositories(PairStore(s1, s2)) == [s1.repository]
    ensures RepoSubs(PairStore(s1, s2).GetAllSubscriptions(), s1.repository) == [s1, s2]
  {
    PairStoreAll(s1, s2);
    GroupTwo(s1, s2);
    RepoSubsTwo(s1, s2);
  }

  /** What a chat of a pair store receives is its feed from the one repository. */
  lemma PairStoreUpdates(s1: Subscription, s2: Subscription, fetch: Fetch, c: Int64)
    requires s1.chatId != s2.chatId && s1.repository == s2.repository
    ensures Get(TickUpdates(PairStore(s1, s2), fetch), c) ==
      Received(FeedPart(PairStore(s1, s2), fetch, s1.repository, c))
  {
    var t := PairStore(s1, s2);
    PairStoreValid(s1, s2);
    PairStoreGroup(s1, s2);
    ConcatMapOne((r: string) => FeedPart(t, fetch, r, c), s1.repository);
    TickUpdatesAt(t, fetch, c);
  }

  lemma LabelFilters()
    ensures Filtered(["bug"], [first, second]) == [first]
    ensures Filtered(["feature"], [first, second]) == [second]
    ensures Filtered([], [first, second]) == [first, second]
  {
    assert Matches(["bug"], first) by { assert first.labelNames[0] in ["bug"]; }
    assert Matches(["feature"], second) by { assert second.labelNames[0] in ["feature"]; }
    assert !Matches(["bug"], second) by {
      assert |second.labelNames| == 1 && |second.labelNames[0]| != |"bug"|;
    }
    assert !Matches(["feature"], first) by {
      assert |first.labelNames| == 1 && |first.labelNames[0]| != |"feature"|;
    }
    FilteredTwo(["bug"], first, second);
    FilteredTwo(["feature"], first, second);
    FilteredTwo([], first, second);
  }

  /** Chat 1 follows `bug` and chat 2 follows `feature` on repo1; neither has a watermark. */
  function LabelStore(): Table {
    PairStore(Subscription(1, "repo1", ["bug"], None), Subscription(2, "repo1", ["feature"], None))
  }

  lemma LabelFeeds(c: Int64)
    requires c == 1 || c == 2
    ensures FeedPart(LabelStore(), Serving("repo1", [first, second]), "repo1", c) ==
      if c == 1 then [first] else [second]
  {
    PairStoreSpec(Subscription(1, "repo1", ["bug"], None), Subscription(2, "repo1", ["feature"], None), c);
    ServedFetch(LabelStore(), "repo1", [first, second]);
    LabelFilters();
  }

  /**
    Two chats on one repository with different label filters each receive only the issue
    carrying their label, and each watermark becomes the number of that issue.
  */
  lemma LabelFanOut()
    ensures Get(TickUpdates(LabelStore(), Serving("repo1", [first, second])), 1) == Some([first])
    ensures Get(TickUpdates(LabelStore(), Serving("repo1", [first, second])), 2) == Some([second])
    ensures TickTable(LabelStore(), Serving("repo1", [first, second])).GetSubscription(1, "repo1")
      == Some(Subscription(1, "repo1", ["bug"], Some(1)))
    ensures TickTable(LabelStore(), Serving("repo1", [first, second])).GetSubscription(2, "repo1")
      == Some(Subscription(2, "repo1", ["feature"], Some(2)))
  {
    var s1, s2 := Subscription(1, "repo1", ["bug"], None), Subscription(2, "repo1", ["feature"], None);
    var t, fetch := LabelStore(), Serving("repo1", [first, second]);
    LabelFeeds(1);
    LabelFeeds(2);
    PairStoreUpdates(s1, s2, fetch, 1);
    PairStoreUpdates(s1, s2, fetch, 2);
    assert AfterRun(t, fetch, 1, "repo1") == Some(s1.(lastCheckedIssueId := Some(1))) by {
      PairStoreSpec(s1, s2, 1);
      ServedFetch(t, "repo1", [first, second]);
      LabelFilters();
      assert [first][..0] == [];
    }
    assert AfterRun(t, fetch, 2, "repo1") == Some(s2.(lastCheckedIssueId := Some(2))) by {
      PairStoreSpec(s1, s2, 2);
      ServedFetch(t, "repo1", [first, second]);
      LabelFilters();
      assert [second][..0] == [];
    }
    PairStoreValid(s1, s2);
    TickTableAt(t, fetch, 1, "repo1");
    TickTableAt(t, fetch, 2, "repo1");
  }

  /** A fetch that throws leaves the run with no updates at all. */
  lemma FailingFetchGivesNoUpdates()
    ensures TickUpdates(Table([]).Added(1, "repo1", []), (r: string, since: Int32) => None) == []
  {
    var t := Table([]).Added(1, "repo1", []);
    var fetch: Fetch := (r: string, since: Int32) => None;
    AddedIsUpsert(Table([]), 1, "repo1", []);
  }

  /** Chat 1 has seen up to #1 and chat 2 up to #2 on repo1; neither filters by label. */
  function MarkedStore(): Table {
    PairStore(Subscription(1, "repo1", [], Some(1)), Subscription(2, "repo1", [], Some(2)))
  }

  lemma MarkedFeeds(c: Int64)
    requires c == 1 || c == 2
    ensures FeedPart(MarkedStore(), Serving("repo1", [first, second]), "repo1", c) == [first, second]
  {
    PairStoreSpec(Subscription(1, "repo1", [], Some(1)), Subscription(2, "repo1", [], Some(2)), c);
    ServedFetch(MarkedStore(), "repo1", [first, second]);
    LabelFilters();
  }

  /**
    The run fetches from the largest watermark of the group and does not compare issue
    numbers with a subscriber's own watermark: when the fetch returns #1 and #2 both chats
    receive both, and chat 1's watermark moves to 2.  (The repository's disabled test
    expects chat 1 to receive only #2 and chat 2 nothing.)
  */
  lemma NoPerSubscriberCutoff()
    ensures RepoBoundary(MarkedStore(), "repo1") == 2
    ensures Get(TickUpdates(MarkedStore(), Serving("repo1", [first, second])), 1) == Some([first, second])
    ensures Get(TickUpdates(MarkedStore(), Serving("repo1", [first, second])), 2) == Some([first, second])
    ensures TickTable(MarkedStore(), Serving("repo1", [first, second])).GetSubscription(1, "repo1")
      == Some(Subscription(1, "repo1", [], Some(2)))
  {
    var s1, s2 := Subscription(1, "repo1", [], Some(1)), Subscription(2, "repo1", [], Some(2));
    var t, fetch := MarkedStore(), Serving("repo1", [first, second]);
    PairStoreGroup(s1, s2);
    assert Boundary([s1, s2]) == 2 by { assert [s1, s2][..1] == [s1]; }
    MarkedFeeds(1);
    MarkedFeeds(2);
    PairStoreUpdates(s1, s2, fetch, 1);
    PairStoreUpdates(s1, s2, fetch, 2);
    MarkedWatermark();
  }

  lemma MarkedAfterRun()
    ensures AfterRun(MarkedStore(), Serving("repo1", [first, second]), 1, "repo1")
      == Some(Subscription(1, "repo1", [], Some(2)))
  {
    var s1 := Subscription(1, "repo1", [], Some(1));
    PairStoreSpec(s1, Subscription(2, "repo1", [], Some(2)), 1);
    ServedFetch(MarkedStore(), "repo1", [first, second]);
    assert NewMark(s1, Some([first, second])) == Some(2) by {
      LabelFilters();
      assert MaxNumber([first, second]) == 2 by { assert [first, second][..1] == [first]; }
    }
  }

  lemma MarkedWatermark()
    ensures TickTable(MarkedStore(), Serving("repo1", [first, second])).GetSubscription(1, "repo1")
      == Some(Subscription(1, "repo1", [], Some(2)))
  {
    PairStoreValid(Subscription(1, "repo1", [], Some(1)), Subscription(2, "repo1", [], Some(2)));
    MarkedAfterRun();
    TickTableAt(MarkedStore(), Serving("repo1", [first, second]), 1, "repo1");
  }

  lemma LoweredAfterRun()
    ensures AfterRun(MarkedStore(), Serving("repo1", [first]), 2, "repo1")
      == Some(Subscription(2, "repo1", [], Some(1)))
  {
    PairStoreSpec(Subscription(1, "repo1", [], Some(1)), Subscription(2, "repo1", [], Some(2)), 2);
    ServedFetch(MarkedStore(), "repo1", [first]);
    assert [first][..0] == [];
    assert Filtered([], [first]) == [first];
  }

  /** Nothing keeps the watermark from going down: it becomes the largest number delivered, even below the old one. */
  lemma WatermarkCanGoDown()
    ensures TickTable(MarkedStore(), Serving("repo1", [first])).GetSubscription(2, "repo1")
      == Some(Subscription(2, "repo1", [], Some(1)))
  {
    PairStoreValid(Subscription(1, "repo1", [], Some(1)), Subscription(2, "repo1", [], Some(2)));
    LoweredAfterRun();
    TickTableAt(MarkedStore(), Serving("repo1", [first]), 2, "repo1");
  }

  // ---------------------------------------------------------------------------
  // Notification (NotificationServiceTest.kt)

  /** `notify` runs once per (chat, issue) entry of the update map, repeated issues included. */
  lemma NotifyPerEntry()
    ensures Pairs([(1 as Int64, [first]), (2 as Int64, [first, first])]) == [(1, first), (2, first), (2, first)]
    ensures Project(Pairs([(1 as Int64, [first]), (2 as Int64, [first, first])]), 2) == [first, first]
  {
    var m: LinkedMap<Int64, seq<Issue>> := [(1, [first]), (2, [first, first])];
    assert m[..1] == [(1, [first])];
    assert m[..1][..0] == [];
    assert [first][..0] == [];
    assert Lift(1 as Int64, [first]) == [] + [(1, first)];
    LiftTwo(2 as Int64, first, first);
    assert Pairs(m[..1]) == [] + [(1, first)];
    IndexOfTwo(m[0], m[1], 2);
    PairsProject(m, 2);
  }
}
