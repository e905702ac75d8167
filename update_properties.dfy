/**
  What one run of `checkForUpdates` does, stated against the store it starts from:
  which fetch calls it makes, what each chat receives and in what order, and what
  each watermark becomes.
*/
module UpdateProperties {
  import opened Wrappers
  import opened LinkedMaps
  import opened Subscriptions
  import opened Updates

  /** The subscriptions of `subs` to repository `r`, in order. */
  function RepoSubs(subs: seq<Subscription>, r: string): (rs: seq<Subscription>)
    ensures forall s :: s in rs <==> s in subs && s.repository == r
  {
    if subs == [] then []
    else
      var init, last := subs[..|subs| - 1], subs[|subs| - 1];
      assert subs == init + [last];
      RepoSubs(init, r) + (if last.repository == r then [last] else [])
  }

  predicate NoDuplicates<T(==)>(xs: seq<T>) {
    forall i, j :: 0 <= i < j < |xs| ==> xs[i] != xs[j]
  }

  /** The repositories in the order the run visits them. */
  function Repositories(t: Table): seq<string> {
    Keys(GroupByRepo(t.GetAllSubscriptions()))
  }

  /** The `since` value the run passes when it fetches repository `r`. */
  function RepoBoundary(t: Table, r: string): Int32 {
    Boundary(RepoSubs(t.GetAllSubscriptions(), r))
  }

  /** What the fetch of repository `r` yields during the run. */
  function Fetched(t: Table, fetch: Fetch, r: string): Option<seq<Issue>> {
    fetch(r, RepoBoundary(t, r))
  }

  /** Issue `i` reaches chat `c` through its subscription to `r`: the subscription exists,
      the fetch of `r` succeeded and returned `i`, and `i` passes the subscription's filter. */
  predicate Delivers(t: Table, fetch: Fetch, c: Int64, r: string, i: Issue) {
    && t.GetSubscription(c, r).Some?
    && Fetched(t, fetch, r).Some?
    && i in Fetched(t, fetch, r).value
    && Matches(t.GetSubscription(c, r).value.labels, i)
  }

  /** What chat `c` receives from repository `r`: the fetched issues that pass its filter. */
  function FeedPart(t: Table, fetch: Fetch, r: string, c: Int64): seq<Issue> {
    match t.GetSubscription(c, r)
    case None => []
    case Some(s) =>
      match Fetched(t, fetch, r)
      case None => []
      case Some(issues) => Filtered(s.labels, issues)
  }

  /** What chat `c` receives from the repositories `rs`, repository by repository. */
  function ChatFeed(t: Table, fetch: Fetch, rs: seq<string>, c: Int64): seq<Issue> {
    ConcatMap((r: string) => FeedPart(t, fetch, r, c), rs)
  }

  /** The watermark a subscription ends the run with, given what the fetch of its repository yielded. */
  function NewMark(s: Subscription, fetched: Option<seq<Issue>>): Option<Int32> {
    match fetched
    case None => s.lastCheckedIssueId
    case Some(issues) =>
      var f := Filtered(s.labels, issues);
      if f == [] then s.lastCheckedIssueId else Some(MaxNumber(f))
  }

  /** The stored value of pair (`c`, `r`) once the run is over, as the source promises it. */
  function AfterRun(t: Table, fetch: Fetch, c: Int64, r: string): Option<Subscription> {
    match t.GetSubscription(c, r)
    case None => None
    case Some(s) => Some(s.(lastCheckedIssueId := NewMark(s, Fetched(t, fetch, r))))
  }

  /** The entry of the update map for a chat whose feed is `feed`: none when nothing arrives. */
  function Received(feed: seq<Issue>): Option<seq<Issue>> {
    if feed == [] then None else Some(feed)
  }

  /** The match lists of the subscriptions of chat `c` among `subs`, concatenated. */
  function ChatMatches(subs: seq<Subscription>, c: Int64, issues: seq<Issue>): seq<Issue> {
    if subs == [] then []
    else
      var last := subs[|subs| - 1];
      ChatMatches(subs[..|subs| - 1], c, issues) + (if last.chatId == c then Filtered(last.labels, issues) else [])
  }

  // ---------------------------------------------------------------------------
  // Grouping

  lemma {:induction false} ByRepositoryCollect(subs: seq<Subscription>, r: string)
    ensures Collect(ByRepository(subs), r) == RepoSubs(subs, r)
    ensures r in Keys(ByRepository(subs)) <==> exists s :: s in subs && s.repository == r
  {
    if subs != [] {
      var init, last := subs[..|subs| - 1], subs[|subs| - 1];
      var kvs := ByRepository(subs);
      assert kvs[..|kvs| - 1] == ByRepository(init);
      ByRepositoryCollect(init, r);
      assert subs == init + [last];
      assert Keys(kvs) == Keys(ByRepository(init)) + [last.repository];
    }
  }

  /**
    `groupBy { it.repository }` over the stored subscriptions: one group per repository that
    has a subscriber, holding exactly that repository's subscriptions in store order.
  */
  lemma GroupsSpec(t: Table)
    requires t.Valid()
    ensures LinkedMaps.Valid(GroupByRepo(t.GetAllSubscriptions()))
    ensures forall k :: 0 <= k < |GroupByRepo(t.GetAllSubscriptions())| ==>
      GroupByRepo(t.GetAllSubscriptions())[k].1 ==
        RepoSubs(t.GetAllSubscriptions(), GroupByRepo(t.GetAllSubscriptions())[k].0)
    ensures forall r :: r in Repositories(t) <==>
      exists s :: s in t.GetAllSubscriptions() && s.repository == r
  {
    var all := t.GetAllSubscriptions();
    var groups := GroupByRepo(all);
    AppendAllSpec([], ByRepository(all));
    forall r
      ensures r in Keys(groups) <==> exists s :: s in all && s.repository == r
    {
      ByRepositoryCollect(all, r);
    }
    forall k | 0 <= k < |groups|
      ensures groups[k].1 == RepoSubs(all, groups[k].0)
    {
      IndexOfValid(groups, k);
      ByRepositoryCollect(all, groups[k].0);
    }
  }

  lemma AllNoDuplicates(t: Table)
    requires t.Valid()
    ensures NoDuplicates(t.GetAllSubscriptions())
  {
    AllSubscriptionsSpec(t);
  }

  lemma {:induction false} RepoSubsNoDuplicates(subs: seq<Subscription>, r: string)
    requires NoDuplicates(subs)
    ensures NoDuplicates(RepoSubs(subs, r))
  {
    if subs != [] {
      var init, last := subs[..|subs| - 1], subs[|subs| - 1];
      RepoSubsNoDuplicates(init, r);
      assert last !in init;
      assert last !in RepoSubs(init, r);
    }
  }

  /** Every subscription grouped under `r` is the one stored for its chat and `r`. */
  lemma RepoSubsStored(t: Table, r: string)
    requires t.Valid()
    ensures forall s :: s in RepoSubs(t.GetAllSubscriptions(), r) <==>
      s.repository == r && t.GetSubscription(s.chatId, r) == Some(s)
  {
    AllSubscriptionsSpec(t);
  }

  // ---------------------------------------------------------------------------
  // What each chat receives

  lemma {:induction false} GroupChatMatches(repo: string, subs: seq<Subscription>, issues: seq<Issue>, c: Int64)
    ensures Collect(Deliveries(GroupContributions(repo, subs, issues)), c) == ChatMatches(subs, c, issues)
  {
    if subs != [] {
      var init, last := subs[..|subs| - 1], subs[|subs| - 1];
      GroupChatMatches(repo, init, issues, c);
      var f := Filtered(last.labels, issues);
      var before := GroupContributions(repo, init, issues);
      if f == [] {
        assert GroupContributions(repo, subs, issues) == before + [] == before;
        assert ChatMatches(subs, c, issues) == ChatMatches(init, c, issues) + [] == ChatMatches(init, c, issues);
      } else {
        var ct := Contribution(last.chatId, repo, f);
        assert GroupContributions(repo, subs, issues) == before + [ct];
        var d := Deliveries(before + [ct]);
        assert d[..|d| - 1] == Deliveries(before);
        assert Collect(d, c) == Collect(Deliveries(before), c) + (if last.chatId == c then f else []);
      }
    }
  }

  /** Among duplicate-free subscriptions to one repository, chat `c` has at most the one, `o`. */
  lemma {:induction false} ChatMatchesUnique(subs: seq<Subscription>, c: Int64, issues: seq<Issue>, o: Option<Subscription>)
    requires NoDuplicates(subs)
    requires forall s :: s in subs && s.chatId == c ==> o == Some(s)
    requires o.Some? ==> o.value.chatId == c
    ensures ChatMatches(subs, c, issues) == if o.Some? && o.value in subs then Filtered(o.value.labels, issues) else []
  {
    if subs != [] {
      var init, last := subs[..|subs| - 1], subs[|subs| - 1];
      assert subs == init + [last];
      ChatMatchesUnique(init, c, issues, o);
      if last.chatId == c {
        forall i | 0 <= i < |init|
          ensures init[i] != last
        {
          assert init[i] == subs[i];
        }
        assert ChatMatches(init, c, issues) == [];
        assert ChatMatches(subs, c, issues) == [] + Filtered(last.labels, issues);
      } else {
        assert o.Some? && o.value in subs ==> o.value in init;
        assert ChatMatches(subs, c, issues) == ChatMatches(init, c, issues) + [];
      }
    }
  }

  /** The group of `r` delivers to chat `c` exactly `FeedPart(t, fetch, r, c)`. */
  lemma GroupFeed(t: Table, fetch: Fetch, r: string, c: Int64)
    requires t.Valid()
    ensures Collect(Deliveries(RepoContributions(r, RepoSubs(t.GetAllSubscriptions(), r), fetch)), c)
      == FeedPart(t, fetch, r, c)
  {
    var subs := RepoSubs(t.GetAllSubscriptions(), r);
    match Fetched(t, fetch, r)
    case None =>
    case Some(issues) =>
      GroupChatMatches(r, subs, issues, c);
      AllNoDuplicates(t);
      RepoSubsNoDuplicates(t.GetAllSubscriptions(), r);
      RepoSubsStored(t, r);
      if t.GetSubscription(c, r).Some? {
        StoredUnderOwnKey(t, c, r);
      }
      ChatMatchesUnique(subs, c, issues, t.GetSubscription(c, r));
  }

  lemma DeliveriesConcat(a: seq<Contribution>, b: seq<Contribution>)
    ensures Deliveries(a + b) == Deliveries(a) + Deliveries(b)
  {
  }

  lemma {:induction false} FeedOfGroups(t: Table, fetch: Fetch, groups: LinkedMap<string, seq<Subscription>>, c: Int64)
    requires t.Valid()
    requires forall k :: 0 <= k < |groups| ==> groups[k].1 == RepoSubs(t.GetAllSubscriptions(), groups[k].0)
    ensures Collect(Deliveries(Contributions(groups, fetch)), c) == ChatFeed(t, fetch, Keys(groups), c)
  {
    if groups != [] {
      var init, last := groups[..|groups| - 1], groups[|groups| - 1];
      FeedOfGroups(t, fetch, init, c);
      var a, b := Contributions(init, fetch), RepoContributions(last.0, last.1, fetch);
      DeliveriesConcat(a, b);
      CollectConcat(Deliveries(a), Deliveries(b), c);
      GroupFeed(t, fetch, last.0, c);
      assert Contributions(groups, fetch) == a + b;
      assert Keys(groups)[..|groups| - 1] == Keys(init);
      assert ChatFeed(t, fetch, Keys(groups), c) == ChatFeed(t, fetch, Keys(init), c) + FeedPart(t, fetch, last.0, c);
    }
  }

  /**
    The map `checkForUpdates` returns: valid, and a chat is a key exactly when it receives
    something, bound to what it receives — for each repository in visiting order, the issues
    of that repository's fetch that pass the chat's filter, in fetch order.
  */
  lemma TickUpdatesSpec(t: Table, fetch: Fetch)
    requires t.Valid()
    ensures LinkedMaps.Valid(TickUpdates(t, fetch))
    ensures forall c :: Get(TickUpdates(t, fetch), c) == Received(ChatFeed(t, fetch, Repositories(t), c))
  {
    AppendAllSpec([], Deliveries(TickContributions(t, fetch)));
    forall c
      ensures Get(TickUpdates(t, fetch), c) == Received(ChatFeed(t, fetch, Repositories(t), c))
    {
      TickUpdatesAt(t, fetch, c);
    }
  }

  /** Building the map from non-empty contributions binds a chat exactly when something is collected for it. */
  lemma UpdatesFromCollect(cs: seq<Contribution>, c: Int64)
    requires NonEmpty(cs)
    ensures Get(AppendAll([], Deliveries(cs)), c) == Received(Collect(Deliveries(cs), c))
  {
    var d := Deliveries(cs);
    AppendAllSpec([], d);
    assert forall j :: 0 <= j < |d| ==> d[j].1 == cs[j].issues;
    CollectKeys(d, c);
    var feed := Collect(d, c);
    assert Get<Int64, seq<Issue>>([], c).GetOr([]) + feed == feed;
    assert c !in Keys<Int64, seq<Issue>>([]);
  }

  lemma CollectIsFeed(t: Table, fetch: Fetch, c: Int64)
    requires t.Valid()
    ensures Collect(Deliveries(TickContributions(t, fetch)), c) == ChatFeed(t, fetch, Repositories(t), c)
  {
    GroupsSpec(t);
    FeedOfGroups(t, fetch, GroupByRepo(t.GetAllSubscriptions()), c);
  }

  lemma TickUpdatesAt(t: Table, fetch: Fetch, c: Int64)
    requires t.Valid()
    ensures Get(TickUpdates(t, fetch), c) == Received(ChatFeed(t, fetch, Repositories(t), c))
  {
    UpdatesFromCollect(TickContributions(t, fetch), c);
    CollectIsFeed(t, fetch, c);
  }


  lemma FeedPartMember(t: Table, fetch: Fetch, r: string, c: Int64, i: Issue)
    ensures i in FeedPart(t, fetch, r, c) <==> Delivers(t, fetch, c, r, i)
  {
  }

  lemma ChatFeedMember(t: Table, fetch: Fetch, rs: seq<string>, c: Int64, i: Issue)
    ensures i in ChatFeed(t, fetch, rs, c) <==> exists k :: 0 <= k < |rs| && i in FeedPart(t, fetch, rs[k], c)
  {
    ConcatMapMember((r: string) => FeedPart(t, fetch, r, c), rs, i);
  }

  /** Every repository a chat subscribes to is visited. */
  lemma SubscribedIsVisited(t: Table, c: Int64, r: string)
    requires t.Valid() && t.GetSubscription(c, r).Some?
    ensures r in Repositories(t)
  {
    AllSubscriptionsSpec(t);
    StoredUnderOwnKey(t, c, r);
    GroupsSpec(t);
    assert t.GetSubscription(c, r).value in t.GetAllSubscriptions();
  }

  /**
    Soundness and completeness of the update map: an issue is in chat `c`'s list exactly when
    one of the chat's subscriptions delivers it.
  */
  lemma UpdatesMembership(t: Table, fetch: Fetch, c: Int64, i: Issue)
    requires t.Valid()
    ensures i in Get(TickUpdates(t, fetch), c).GetOr([]) <==> exists r :: Delivers(t, fetch, c, r, i)
  {
    TickUpdatesAt(t, fetch, c);
    var rs := Repositories(t);
    ChatFeedMember(t, fetch, rs, c, i);
    if i in ChatFeed(t, fetch, rs, c) {
      var k :| 0 <= k < |rs| && i in FeedPart(t, fetch, rs[k], c);
      FeedPartMember(t, fetch, rs[k], c, i);
    }
    forall r | Delivers(t, fetch, c, r, i)
      ensures i in ChatFeed(t, fetch, rs, c)
    {
      SubscribedIsVisited(t, c, r);
      var k :| 0 <= k < |rs| && rs[k] == r;
      FeedPartMember(t, fetch, r, c, i);
    }
  }

  /** A chat is a key of the update map exactly when some issue is delivered to it. */
  lemma UpdatesKeys(t: Table, fetch: Fetch, c: Int64)
    requires t.Valid()
    ensures c in Keys(TickUpdates(t, fetch)) <==> exists r, i :: Delivers(t, fetch, c, r, i)
  {
    TickUpdatesAt(t, fetch, c);
    var feed := ChatFeed(t, fetch, Repositories(t), c);
    if feed != [] {
      UpdatesMembership(t, fetch, c, feed[0]);
    }
    forall r, i | Delivers(t, fetch, c, r, i)
      ensures c in Keys(TickUpdates(t, fetch))
    {
      UpdatesMembership(t, fetch, c, i);
    }
  }

  /** `checkAndNotify` calls `notify` for chat `c` with exactly the chat's feed, in order. */
  lemma NotifiedFeed(t: Table, fetch: Fetch, c: Int64)
    requires t.Valid()
    ensures Project(Pairs(TickUpdates(t, fetch)), c) == ChatFeed(t, fetch, Repositories(t), c)
  {
    TickUpdatesSpec(t, fetch);
    PairsProject(TickUpdates(t, fetch), c);
  }

  // ---------------------------------------------------------------------------
  // Watermarks

  lemma {:induction false} GroupContributionsMember(repo: string, subs: seq<Subscription>, issues: seq<Issue>, ct: Contribution)
    ensures ct in GroupContributions(repo, subs, issues) <==>
      && ct.repository == repo
      && ct.issues != []
      && exists s :: s in subs && s.chatId == ct.chatId && ct.issues == Filtered(s.labels, issues)
  {
    if subs != [] {
      var init, last := subs[..|subs| - 1], subs[|subs| - 1];
      GroupContributionsMember(repo, init, issues, ct);
      assert subs == init + [last];
    }
  }

  lemma {:induction false} ContributionsConcatMap(groups: LinkedMap<string, seq<Subscription>>, fetch: Fetch)
    ensures Contributions(groups, fetch) == ConcatMap((g: (string, seq<Subscription>)) => RepoContributions(g.0, g.1, fetch), groups)
  {
    if groups != [] {
      ContributionsConcatMap(groups[..|groups| - 1], fetch);
    }
  }

  lemma ContributionsMember(groups: LinkedMap<string, seq<Subscription>>, fetch: Fetch, ct: Contribution)
    ensures ct in Contributions(groups, fetch) <==>
      exists k :: 0 <= k < |groups| && ct in RepoContributions(groups[k].0, groups[k].1, fetch)
  {
    ContributionsConcatMap(groups, fetch);
    ConcatMapMember((g: (string, seq<Subscription>)) => RepoContributions(g.0, g.1, fetch), groups, ct);
  }

  /** What a contribution of the run is: the non-empty match list of a stored subscription
      against the successful fetch of its repository. */
  predicate Expected(t: Table, fetch: Fetch, ct: Contribution) {
    && t.GetSubscription(ct.chatId, ct.repository).Some?
    && Fetched(t, fetch, ct.repository).Some?
    && ct.issues == Filtered(t.GetSubscription(ct.chatId, ct.repository).value.labels, Fetched(t, fetch, ct.repository).value)
    && ct.issues != []
  }

  lemma ContributionSpec(t: Table, fetch: Fetch, ct: Contribution)
    requires t.Valid()
    ensures ct in TickContributions(t, fetch) <==> Expected(t, fetch, ct)
  {
    if ct in TickContributions(t, fetch) {
      ContributionSound(t, fetch, ct);
    }
    if Expected(t, fetch, ct) {
      ContributionComplete(t, fetch, ct);
    }
  }

  lemma ContributionSound(t: Table, fetch: Fetch, ct: Contribution)
    requires t.Valid() && ct in TickContributions(t, fetch)
    ensures Expected(t, fetch, ct)
  {
    var groups := GroupByRepo(t.GetAllSubscriptions());
    GroupsSpec(t);
    ContributionsMember(groups, fetch, ct);
    var k :| 0 <= k < |groups| && ct in RepoContributions(groups[k].0, groups[k].1, fetch);
    var r := groups[k].0;
    assert Fetched(t, fetch, r) == fetch(r, Boundary(groups[k].1));
    var issues := Fetched(t, fetch, r).value;
    GroupContributionsMember(r, groups[k].1, issues, ct);
    RepoSubsStored(t, r);
  }

  lemma ContributionComplete(t: Table, fetch: Fetch, ct: Contribution)
    requires t.Valid() && Expected(t, fetch, ct)
    ensures ct in TickContributions(t, fetch)
  {
    var groups := GroupByRepo(t.GetAllSubscriptions());
    GroupsSpec(t);
    var r := ct.repository;
    var s := t.GetSubscription(ct.chatId, r).value;
    SubscribedIsVisited(t, ct.chatId, r);
    var k :| 0 <= k < |groups| && groups[k].0 == r;
    RepoSubsStored(t, r);
    StoredUnderOwnKey(t, ct.chatId, r);
    assert s in groups[k].1;
    assert Fetched(t, fetch, r) == fetch(r, Boundary(groups[k].1));
    GroupContributionsMember(r, groups[k].1, Fetched(t, fetch, r).value, ct);
    ContributionsMember(groups, fetch, ct);
  }

  /** Folding `updateLastChecked` over contributions that all agree on the new watermark `mark`
      of pair (`c`, `r`): the pair gets `mark` if some contribution names it, and is otherwise
      unchanged; the store stays valid. */
  lemma {:induction false} ApplyWatermarksAt(t: Table, cs: seq<Contribution>, c: Int64, r: string, mark: Int32)
    requires t.Valid() && NonEmpty(cs)
    requires forall ct :: ct in cs && ct.chatId == c && ct.repository == r ==> MaxNumber(ct.issues) == mark
    ensures ApplyWatermarks(t, cs).Valid()
    ensures ApplyWatermarks(t, cs).GetSubscription(c, r) ==
      match t.GetSubscription(c, r)
      case None => None
      case Some(s) =>
        if exists ct :: ct in cs && ct.chatId == c && ct.repository == r
        then Some(s.(lastCheckedIssueId := Some(mark)))
        else Some(s)
  {
    if cs != [] {
      var init, last := cs[..|cs| - 1], cs[|cs| - 1];
      assert cs == init + [last];
      ApplyWatermarksAt(t, init, c, r, mark);
      WithWatermarkSpec(ApplyWatermarks(t, init), last.chatId, last.repository, MaxNumber(last.issues));
    }
  }

  /** The contributions the run makes for pair (`c`, `r`): each is the expected one, and
      there is one exactly when the pair's match list is non-empty. */
  lemma KeyedContributions(t: Table, fetch: Fetch, c: Int64, r: string)
    requires t.Valid()
    ensures forall ct :: ct in TickContributions(t, fetch) && ct.chatId == c && ct.repository == r ==> Expected(t, fetch, ct)
    ensures (exists ct :: ct in TickContributions(t, fetch) && ct.chatId == c && ct.repository == r) <==>
      && t.GetSubscription(c, r).Some?
      && Fetched(t, fetch, r).Some?
      && Filtered(t.GetSubscription(c, r).value.labels, Fetched(t, fetch, r).value) != []
  {
    forall ct | ct in TickContributions(t, fetch) && ct.chatId == c && ct.repository == r
      ensures Expected(t, fetch, ct)
    {
      ContributionSpec(t, fetch, ct);
    }
    var o := t.GetSubscription(c, r);
    if o.Some? && Fetched(t, fetch, r).Some? && Filtered(o.value.labels, Fetched(t, fetch, r).value) != [] {
      ContributionSpec(t, fetch, Contribution(c, r, Filtered(o.value.labels, Fetched(t, fetch, r).value)));
    }
  }

  /** The watermark of (`c`, `r`) after the run. */
  lemma TickTableAt(t: Table, fetch: Fetch, c: Int64, r: string)
    requires t.Valid()
    ensures TickTable(t, fetch).Valid()
    ensures TickTable(t, fetch).GetSubscription(c, r) == AfterRun(t, fetch, c, r)
  {
    var cs := TickContributions(t, fetch);
    var o := t.GetSubscription(c, r);
    KeyedContributions(t, fetch, c, r);
    var hit := o.Some? && Fetched(t, fetch, r).Some? && Filtered(o.value.labels, Fetched(t, fetch, r).value) != [];
    var mark: Int32 := if hit then MaxNumber(Filtered(o.value.labels, Fetched(t, fetch, r).value)) else 0;
    ApplyWatermarksAt(t, cs, c, r, mark);
  }

  /**
    The store after the run: still valid, the same pairs, and each subscription's watermark
    set to the largest number among the issues its filter accepted from its repository's
    fetch, or kept when the fetch failed or nothing matched.
  */
  lemma TickTableSpec(t: Table, fetch: Fetch)
    requires t.Valid()
    ensures TickTable(t, fetch).Valid()
    ensures forall c: Int64, r: string :: TickTable(t, fetch).GetSubscription(c, r) == AfterRun(t, fetch, c, r)
  {
    TickTableAt(t, fetch, 0, "");
    forall c: Int64, r: string
      ensures TickTable(t, fetch).GetSubscription(c, r) == AfterRun(t, fetch, c, r)
    {
      TickTableAt(t, fetch, c, r);
    }
  }

  // ---------------------------------------------------------------------------
  // Fetch calls

  /** The run visits exactly the repositories with at least one subscriber. */
  lemma RepositoriesSpec(t: Table, r: string)
    requires t.Valid()
    ensures r in Repositories(t) <==> exists c: Int64 :: t.GetSubscription(c, r).Some?
  {
    GroupsSpec(t);
    AllSubscriptionsSpec(t);
    if r in Repositories(t) {
      var s :| s in t.GetAllSubscriptions() && s.repository == r;
      assert t.GetSubscription(s.chatId, r).Some?;
    }
    forall c: Int64 | t.GetSubscription(c, r).Some?
      ensures r in Repositories(t)
    {
      SubscribedIsVisited(t, c, r);
    }
  }

  /**
    The run fetches each repository that has a subscriber exactly once, in visiting order,
    passing the largest watermark among that repository's subscriptions (null counting as 0).
  */
  lemma TickRequestsSpec(t: Table)
    requires t.Valid()
    ensures |TickRequests(t)| == |Repositories(t)|
    ensures forall k :: 0 <= k < |Repositories(t)| ==>
      TickRequests(t)[k] == (Repositories(t)[k], RepoBoundary(t, Repositories(t)[k]))
    ensures NoDuplicates(Repositories(t))
    ensures forall r :: r in Repositories(t) <==> exists c: Int64 :: t.GetSubscription(c, r).Some?
  {
    GroupsSpec(t);
    forall r
      ensures r in Repositories(t) <==> exists c: Int64 :: t.GetSubscription(c, r).Some?
    {
      RepositoriesSpec(t, r);
    }
  }

  lemma {:induction false} RepoSubsEmpty(subs: seq<Subscription>, r: string)
    requires forall s :: s in subs ==> s.repository != r
    ensures RepoSubs(subs, r) == []
  {
    if subs != [] {
      assert subs[|subs| - 1] in subs;
      assert forall s :: s in subs[..|subs| - 1] ==> s in subs;
      RepoSubsEmpty(subs[..|subs| - 1], r);
    }
  }

  /** The boundary of `r` bounds every watermark of `r` from above and is one of them
      (or 0 when nobody subscribes to `r`). */
  lemma RepoBoundarySpec(t: Table, r: string)
    requires t.Valid()
    ensures forall c: Int64 :: t.GetSubscription(c, r).Some? ==> Mark(t.GetSubscription(c, r).value) <= RepoBoundary(t, r)
    ensures r !in Repositories(t) ==> RepoBoundary(t, r) == 0
    ensures r in Repositories(t) ==>
      exists c: Int64 :: t.GetSubscription(c, r).Some? && Mark(t.GetSubscription(c, r).value) == RepoBoundary(t, r)
  {
    RepoSubsStored(t, r);
    GroupsSpec(t);
    forall c: Int64 | t.GetSubscription(c, r).Some?
      ensures Mark(t.GetSubscription(c, r).value) <= RepoBoundary(t, r)
    {
      StoredUnderOwnKey(t, c, r);
    }
    if r !in Repositories(t) {
      RepoSubsEmpty(t.GetAllSubscriptions(), r);
    }
  }

  // ---------------------------------------------------------------------------
  // Failures

  /** A repository whose fetch fails delivers nothing and keeps every watermark. */
  lemma FailedFetchChangesNothing(t: Table, fetch: Fetch, r: string)
    requires t.Valid() && Fetched(t, fetch, r).None?
    ensures forall c: Int64 :: TickTable(t, fetch).GetSubscription(c, r) == t.GetSubscription(c, r)
    ensures forall c: Int64 :: FeedPart(t, fetch, r, c) == []
  {
    TickTableSpec(t, fetch);
  }

  /** The other repositories do not notice: two oracles that differ only on `r` give the same
      deliveries and watermarks everywhere else. */
  lemma FetchIsolation(t: Table, fetch1: Fetch, fetch2: Fetch, r: string)
    requires t.Valid()
    requires forall r': string, since: Int32 :: r' != r ==> fetch1(r', since) == fetch2(r', since)
    ensures forall c: Int64, r': string :: r' != r ==>
      TickTable(t, fetch1).GetSubscription(c, r') == TickTable(t, fetch2).GetSubscription(c, r')
    ensures forall c: Int64, r': string :: r' != r ==> FeedPart(t, fetch1, r', c) == FeedPart(t, fetch2, r', c)
  {
    TickTableSpec(t, fetch1);
    TickTableSpec(t, fetch2);
  }
}
