/**
  The update check and the fan-out (`IssueUpdateService`, `NotificationService` and
  `GitHubIssueTracker` in SubscriptionManager.kt).

  The GitHub client is an oracle `fetch(repository, lastCheckedId)`: the issues it returns,
  or `None` when it throws.  The notification callback is the sequence of (chat, issue)
  pairs it is called with.
*/
module Updates {
  import opened Wrappers
  import opened LinkedMaps
  import opened Subscriptions

  /** The part of a `GitHubIssue` the engine reads. */
  datatype Issue = Issue(number: Int32, labelNames: seq<string>, repositoryUrl: string)

  /** `gitHubClient.fetchNewIssues(repo, lastCheckedId)`; `None` when the call throws. */
  type Fetch = (string, Int32) -> Option<seq<Issue>>

  /** `it.lastCheckedIssueId ?: 0` */
  function Mark(s: Subscription): Int32 {
    s.lastCheckedIssueId.GetOr(0)
  }

  /** `subs.maxOfOrNull { it.lastCheckedIssueId ?: 0 } ?: 0`: the largest watermark of the group. */
  function Boundary(subs: seq<Subscription>): (b: Int32)
    ensures subs == [] ==> b == 0
    ensures forall s :: s in subs ==> Mark(s) <= b
    ensures subs != [] ==> exists s :: s in subs && Mark(s) == b
  {
    if subs == [] then 0
    else
      var init, m := subs[..|subs| - 1], Mark(subs[|subs| - 1]);
      assert subs == init + [subs[|subs| - 1]];
      if init == [] then m
      else
        var b := Boundary(init);
        if m > b then m else b
  }

  /** The filter of lines 91-96: no labels matches everything, otherwise one shared label name is needed. */
  predicate Matches(labels: seq<string>, issue: Issue) {
    labels == [] || exists k :: 0 <= k < |issue.labelNames| && issue.labelNames[k] in labels
  }

  /** `newIssues.filter { Matches(sub.labels, it) }` */
  function Filtered(labels: seq<string>, issues: seq<Issue>): (r: seq<Issue>)
    ensures forall i :: i in r <==> i in issues && Matches(labels, i)
  {
    if issues == [] then []
    else
      var init, last := issues[..|issues| - 1], issues[|issues| - 1];
      assert issues == init + [last];
      Filtered(labels, init) + (if Matches(labels, last) then [last] else [])
  }

  /** `filter` keeps one matching issue and drops one that does not. */
  lemma FilteredSingle(labels: seq<string>, i: Issue)
    ensures Filtered(labels, [i]) == if Matches(labels, i) then [i] else []
  {
    assert [i][..0] == [];
  }

  /** `filter` keeps fetch order and repeats: filtering a concatenation concatenates the filtered parts. */
  lemma {:induction false} FilteredConcat(labels: seq<string>, a: seq<Issue>, b: seq<Issue>)
    ensures Filtered(labels, a + b) == Filtered(labels, a) + Filtered(labels, b)
  {
    if b != [] {
      var init, last := b[..|b| - 1], b[|b| - 1];
      assert (a + b)[..|a + b| - 1] == a + init;
      FilteredConcat(labels, a, init);
    } else {
      assert a + b == a;
    }
  }

  /** `filteredIssues.maxOf { it.number }` */
  function MaxNumber(issues: seq<Issue>): (n: Int32)
    requires issues != []
    ensures forall i :: i in issues ==> i.number <= n
    ensures exists i :: i in issues && i.number == n
  {
    var init, last := issues[..|issues| - 1], issues[|issues| - 1];
    assert issues == init + [last];
    if init == [] then last.number
    else
      var n := MaxNumber(init);
      if last.number > n then last.number else n
  }

  /** `f(xs[0]) + f(xs[1]) + ...` */
  function ConcatMap<A, B>(f: A -> seq<B>, xs: seq<A>): seq<B> {
    if xs == [] then []
    else ConcatMap(f, xs[..|xs| - 1]) + f(xs[|xs| - 1])
  }

  lemma {:induction false} ConcatMapMember<A, B>(f: A -> seq<B>, xs: seq<A>, y: B)
    ensures y in ConcatMap(f, xs) <==> exists k :: 0 <= k < |xs| && y in f(xs[k])
  {
    if xs != [] {
      var init := xs[..|xs| - 1];
      ConcatMapMember(f, init, y);
      assert forall k :: 0 <= k < |init| ==> init[k] == xs[k];
    }
  }

  /** One subscriber's non-empty match list for one repository. */
  datatype Contribution = Contribution(chatId: Int64, repository: string, issues: seq<Issue>)

  predicate NonEmpty(cs: seq<Contribution>) {
    forall k :: 0 <= k < |cs| ==> cs[k].issues != []
  }

  /** `subs.forEach { ... if (filteredIssues.isNotEmpty()) ... }`: the subscribers of `repo` with a match, in order. */
  function GroupContributions(repo: string, subs: seq<Subscription>, newIssues: seq<Issue>): (cs: seq<Contribution>)
    ensures NonEmpty(cs)
    ensures forall k :: 0 <= k < |cs| ==> cs[k].repository == repo
  {
    if subs == [] then []
    else
      var sub := subs[|subs| - 1];
      var filtered := Filtered(sub.labels, newIssues);
      GroupContributions(repo, subs[..|subs| - 1], newIssues)
        + (if filtered == [] then [] else [Contribution(sub.chatId, repo, filtered)])
  }

  /** The body of the `try` for one repository group; a failed fetch contributes nothing. */
  function RepoContributions(repo: string, subs: seq<Subscription>, fetch: Fetch): (cs: seq<Contribution>)
    ensures NonEmpty(cs)
  {
    match fetch(repo, Boundary(subs))
    case None => []
    case Some(newIssues) => GroupContributions(repo, subs, newIssues)
  }

  /** All groups in iteration order. */
  function Contributions(groups: LinkedMap<string, seq<Subscription>>, fetch: Fetch): (cs: seq<Contribution>)
    ensures NonEmpty(cs)
  {
    if groups == [] then []
    else
      var g := groups[|groups| - 1];
      Contributions(groups[..|groups| - 1], fetch) + RepoContributions(g.0, g.1, fetch)
  }

  /** Each subscription keyed by its repository. */
  function ByRepository(subs: seq<Subscription>): (kvs: seq<(string, seq<Subscription>)>)
    ensures |kvs| == |subs|
    ensures forall k :: 0 <= k < |subs| ==> kvs[k] == (subs[k].repository, [subs[k]])
  {
    if subs == [] then []
    else
      var s := subs[|subs| - 1];
      ByRepository(subs[..|subs| - 1]) + [(s.repository, [s])]
  }

  /** `getAllSubscriptions().groupBy { it.repository }` */
  function GroupByRepo(subs: seq<Subscription>): LinkedMap<string, seq<Subscription>> {
    AppendAll([], ByRepository(subs))
  }

  /** What `updates.getOrPut(sub.chatId) { mutableListOf() }.addAll(filteredIssues)` is called with, in order. */
  function Deliveries(cs: seq<Contribution>): (kvs: seq<(Int64, seq<Issue>)>)
    ensures |kvs| == |cs|
    ensures forall k :: 0 <= k < |cs| ==> kvs[k] == (cs[k].chatId, cs[k].issues)
  {
    if cs == [] then []
    else
      var c := cs[|cs| - 1];
      Deliveries(cs[..|cs| - 1]) + [(c.chatId, c.issues)]
  }

  /** `subscriptionManager.updateLastChecked(sub.chatId, repo, maxIssueId)` for each contribution in turn. */
  function ApplyWatermarks(t: Table, cs: seq<Contribution>): Table
    requires NonEmpty(cs)
  {
    if cs == [] then t
    else
      var c := cs[|cs| - 1];
      ApplyWatermarks(t, cs[..|cs| - 1]).WithWatermark(c.chatId, c.repository, MaxNumber(c.issues))
  }

  /** The fetch calls, in order: one per repository group, with the group's boundary. */
  function FetchRequests(groups: LinkedMap<string, seq<Subscription>>): (rs: seq<(string, Int32)>)
    ensures |rs| == |groups|
    ensures forall k :: 0 <= k < |groups| ==> rs[k] == (groups[k].0, Boundary(groups[k].1))
  {
    if groups == [] then []
    else
      var g := groups[|groups| - 1];
      FetchRequests(groups[..|groups| - 1]) + [(g.0, Boundary(g.1))]
  }

  /** One run of `checkForUpdates` on store `t`: the contributions, in order. */
  function TickContributions(t: Table, fetch: Fetch): (cs: seq<Contribution>)
    ensures NonEmpty(cs)
  {
    Contributions(GroupByRepo(t.GetAllSubscriptions()), fetch)
  }

  /** The map `checkForUpdates` returns. */
  function TickUpdates(t: Table, fetch: Fetch): LinkedMap<Int64, seq<Issue>> {
    AppendAll([], Deliveries(TickContributions(t, fetch)))
  }

  /** The store after `checkForUpdates`. */
  function TickTable(t: Table, fetch: Fetch): Table {
    ApplyWatermarks(t, TickContributions(t, fetch))
  }

  /** The fetch calls `checkForUpdates` makes. */
  function TickRequests(t: Table): seq<(string, Int32)> {
    FetchRequests(GroupByRepo(t.GetAllSubscriptions()))
  }

  class IssueUpdateService {
    const subscriptionManager: SubscriptionManager

    constructor (subscriptionManager: SubscriptionManager)
      ensures this.subscriptionManager == subscriptionManager
    {
      this.subscriptionManager := subscriptionManager;
    }

    /**
      `checkForUpdates`.  `requests` records the fetch calls made; the fetch result `None`
      stands for the exception that the `catch` of line 106 swallows.
    */
    method CheckForUpdates(fetch: Fetch) returns (updates: LinkedMap<Int64, seq<Issue>>, ghost requests: seq<(string, Int32)>)
      requires subscriptionManager.Valid()
      modifies subscriptionManager
      ensures subscriptionManager.Valid()
      ensures updates == TickUpdates(old(subscriptionManager.subscriptions), fetch)
      ensures subscriptionManager.subscriptions == TickTable(old(subscriptionManager.subscriptions), fetch)
      ensures requests == TickRequests(old(subscriptionManager.subscriptions))
    {
      ghost var t0 := subscriptionManager.subscriptions;
      updates := [];
      requests := [];
      var subscriptionsByRepo := GroupByRepo(subscriptionManager.subscriptions.GetAllSubscriptions());
      ghost var done: seq<Contribution> := [];
      for g := 0 to |subscriptionsByRepo|
        invariant subscriptionManager.Valid()
        invariant done == Contributions(subscriptionsByRepo[..g], fetch)
        invariant updates == AppendAll([], Deliveries(done))
        invariant subscriptionManager.subscriptions == ApplyWatermarks(t0, done)
        invariant requests == FetchRequests(subscriptionsByRepo[..g])
      {
        var repo, subs := subscriptionsByRepo[g].0, subscriptionsByRepo[g].1;
        RepositoryStep(subscriptionsByRepo, g, fetch);
        var lastCheckedId;
        updates, lastCheckedId := CheckRepository(repo, subs, fetch, updates, t0, done);
        requests := requests + [(repo, lastCheckedId)];
        done := done + RepoContributions(repo, subs, fetch);
      }
      assert subscriptionsByRepo[..|subscriptionsByRepo|] == subscriptionsByRepo;
    }

    /** The `try` block of `checkForUpdates` (lines 84-110) for one repository group. */
    method CheckRepository(repo: string, subs: seq<Subscription>, fetch: Fetch,
                           updates0: LinkedMap<Int64, seq<Issue>>, ghost t0: Table, ghost done: seq<Contribution>)
      returns (updates: LinkedMap<Int64, seq<Issue>>, lastCheckedId: Int32)
      requires subscriptionManager.Valid()
      requires NonEmpty(done)
      requires updates0 == AppendAll([], Deliveries(done))
      requires subscriptionManager.subscriptions == ApplyWatermarks(t0, done)
      modifies subscriptionManager
      ensures subscriptionManager.Valid()
      ensures lastCheckedId == Boundary(subs)
      ensures updates == AppendAll([], Deliveries(done + RepoContributions(repo, subs, fetch)))
      ensures subscriptionManager.subscriptions == ApplyWatermarks(t0, done + RepoContributions(repo, subs, fetch))
    {
      updates := updates0;
      lastCheckedId := Boundary(subs);
      var fetched := fetch(repo, lastCheckedId);
      if fetched.None? {
        assert done + RepoContributions(repo, subs, fetch) == done;
        return;
      }
      var newIssues := fetched.value;
      ghost var cur := done;
      assert done + GroupContributions(repo, subs[..0], newIssues) == cur;
      for j := 0 to |subs|
        invariant subscriptionManager.Valid()
        invariant cur == done + GroupContributions(repo, subs[..j], newIssues)
        invariant NonEmpty(cur)
        invariant updates == AppendAll([], Deliveries(cur))
        invariant subscriptionManager.subscriptions == ApplyWatermarks(t0, cur)
      {
        var sub := subs[j];
        GroupStep(repo, subs, j, newIssues, done);
        var filteredIssues := Filtered(sub.labels, newIssues);
        if filteredIssues != [] {
          var c := Contribution(sub.chatId, repo, filteredIssues);
          ContributionStep(t0, cur, c);
          updates := Append(updates, sub.chatId, filteredIssues);
          var maxIssueId := MaxNumber(filteredIssues);
          subscriptionManager.UpdateLastChecked(sub.chatId, repo, maxIssueId);
          cur := cur + [c];
        } else {
          assert cur + [] == cur;
        }
      }
      assert subs[..|subs|] == subs;
    }
  }

  /** One step of the outer loop: one more group's contributions and one more fetch call. */
  lemma RepositoryStep(groups: LinkedMap<string, seq<Subscription>>, g: nat, fetch: Fetch)
    requires g < |groups|
    ensures Contributions(groups[..g + 1], fetch)
      == Contributions(groups[..g], fetch) + RepoContributions(groups[g].0, groups[g].1, fetch)
    ensures FetchRequests(groups[..g + 1]) == FetchRequests(groups[..g]) + [(groups[g].0, Boundary(groups[g].1))]
  {
    assert groups[..g + 1][..g] == groups[..g];
  }

  /** One step of the inner loop: the contributions gain the subscriber's entry exactly when its match list is non-empty. */
  lemma GroupStep(repo: string, subs: seq<Subscription>, j: nat, newIssues: seq<Issue>, done: seq<Contribution>)
    requires j < |subs|
    ensures var f := Filtered(subs[j].labels, newIssues);
      done + GroupContributions(repo, subs[..j + 1], newIssues)
      == done + GroupContributions(repo, subs[..j], newIssues)
        + (if f == [] then [] else [Contribution(subs[j].chatId, repo, f)])
  {
    assert subs[..j + 1][..j] == subs[..j];
  }

  /** Appending one contribution extends the update map and the watermark fold by one step each. */
  lemma ContributionStep(t: Table, cs: seq<Contribution>, c: Contribution)
    requires NonEmpty(cs) && c.issues != []
    ensures NonEmpty(cs + [c])
    ensures AppendAll([], Deliveries(cs + [c])) == Append(AppendAll([], Deliveries(cs)), c.chatId, c.issues)
    ensures ApplyWatermarks(t, cs + [c]) == ApplyWatermarks(t, cs).WithWatermark(c.chatId, c.repository, MaxNumber(c.issues))
  {
    assert (cs + [c])[..|cs|] == cs;
    assert Deliveries(cs + [c]) == Deliveries(cs) + [(c.chatId, c.issues)];
    assert (Deliveries(cs) + [(c.chatId, c.issues)])[..|Deliveries(cs)|] == Deliveries(cs);
  }

  /** `updates.forEach { (chatId, issues) -> issues.forEach { issue -> notify(chatId, issue) } }`:
      the calls of `notify`, in order. */
  method Notify(updates: LinkedMap<Int64, seq<Issue>>) returns (sent: seq<(Int64, Issue)>)
    requires LinkedMaps.Valid(updates)
    ensures sent == Pairs(updates)
    ensures forall c :: Project(sent, c) == Get(updates, c).GetOr([])
  {
    sent := [];
    for k := 0 to |updates|
      invariant sent == Pairs(updates[..k])
    {
      var chatId, issues := updates[k].0, updates[k].1;
      assert updates[..k + 1][..k] == updates[..k];
      for n := 0 to |issues|
        invariant sent == Pairs(updates[..k]) + Lift(chatId, issues[..n])
      {
        assert issues[..n + 1][..n] == issues[..n];
        sent := sent + [(chatId, issues[n])];
      }
      assert issues[..|issues|] == issues;
    }
    assert updates[..|updates|] == updates;
    forall c
      ensures Project(sent, c) == Get(updates, c).GetOr([])
    {
      PairsProject(updates, c);
    }
  }

  class NotificationService {
    const issueUpdateService: IssueUpdateService

    constructor (issueUpdateService: IssueUpdateService)
      ensures this.issueUpdateService == issueUpdateService
    {
      this.issueUpdateService := issueUpdateService;
    }

    /** `checkAndNotify`: one check, then one `notify` call per (chat, issue) entry. */
    method CheckAndNotify(fetch: Fetch) returns (sent: seq<(Int64, Issue)>)
      requires issueUpdateService.subscriptionManager.Valid()
      modifies issueUpdateService.subscriptionManager
      ensures issueUpdateService.subscriptionManager.Valid()
      ensures sent == Pairs(TickUpdates(old(issueUpdateService.subscriptionManager.subscriptions), fetch))
      ensures issueUpdateService.subscriptionManager.subscriptions ==
        TickTable(old(issueUpdateService.subscriptionManager.subscriptions), fetch)
    {
      ghost var t0 := issueUpdateService.subscriptionManager.subscriptions;
      var updates;
      ghost var requests;
      updates, requests := issueUpdateService.CheckForUpdates(fetch);
      AppendAllSpec([], Deliveries(TickContributions(t0, fetch)));
      sent := Notify(updates);
    }
  }

  /** `GitHubIssueTracker` with its default wiring: one shared store behind the update service. */
  class GitHubIssueTracker {
    const subscriptionManager: SubscriptionManager
    const notificationService: NotificationService

    ghost predicate Valid()
      reads this, subscriptionManager
    {
      && notificationService.issueUpdateService.subscriptionManager == subscriptionManager
      && subscriptionManager.Valid()
    }

    constructor ()
      ensures Valid()
      ensures fresh(subscriptionManager)
      ensures subscriptionManager.subscriptions == Table([])
    {
      var manager := new SubscriptionManager();
      var service := new IssueUpdateService(manager);
      subscriptionManager := manager;
      notificationService := new NotificationService(service);
    }

    method Subscribe(chatId: Int64, repository: string, labels: seq<string>)
      requires Valid()
      modifies subscriptionManager
      ensures Valid()
      ensures subscriptionManager.subscriptions == old(subscriptionManager.subscriptions).Added(chatId, repository, labels)
    {
      subscriptionManager.AddSubscription(chatId, repository, labels);
    }

    method Unsubscribe(chatId: Int64, repository: string) returns (removed: bool)
      requires Valid()
      modifies subscriptionManager
      ensures Valid()
      ensures removed == old(subscriptionManager.subscriptions).HasSubscription(chatId, repository)
      ensures subscriptionManager.subscriptions == old(subscriptionManager.subscriptions).Removed(chatId, repository)
    {
      removed := subscriptionManager.RemoveSubscription(chatId, repository);
    }

    /** `getSubscriptions`: exactly the chat's stored subscriptions. */
    function GetSubscriptions(chatId: Int64): (subs: seq<Subscription>)
      reads this, subscriptionManager
      requires Valid()
      ensures forall s :: s in subs <==>
        subscriptionManager.subscriptions.GetSubscription(s.chatId, s.repository) == Some(s) && s.chatId == chatId
    {
      UserSubscriptionsSpec(subscriptionManager.subscriptions, chatId);
      AllSubscriptionsSpec(subscriptionManager.subscriptions);
      subscriptionManager.subscriptions.GetUserSubscriptions(chatId)
    }

    method CheckForUpdates(fetch: Fetch) returns (sent: seq<(Int64, Issue)>)
      requires Valid()
      modifies subscriptionManager
      ensures Valid()
      ensures sent == Pairs(TickUpdates(old(subscriptionManager.subscriptions), fetch))
      ensures subscriptionManager.subscriptions == TickTable(old(subscriptionManager.subscriptions), fetch)
    {
      sent := notificationService.CheckAndNotify(fetch);
    }
  }
}
