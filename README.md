# GitHub issue tracker bot: a Dafny model of its core

This project models the core of a Telegram bot that tracks new GitHub issues. The core has two parts.

- **Subscription store and update engine** (`SubscriptionManager.kt`).
  - A chat subscribes to a repository, optionally with a label filter.
  - The in-memory store keeps one `Subscription` per (chat, repository) pair, in a nested insertion-ordered map.
  - On each check, `IssueUpdateService.checkForUpdates` groups the subscriptions by repository and fetches each repository once. The boundary it fetches from is the largest watermark in the group.
  - It keeps, per subscriber, the fetched issues that pass that subscriber's label filter. It records them in a per-chat update map and moves that subscriber's watermark to the highest number among its matches.
  - A repository whose fetch throws is skipped.
  - `NotificationService.checkAndNotify` calls the notification callback once per (chat, issue) entry of the update map.
  - `GitHubIssueTracker` wires the store, the update service and the notification service together and delegates to them.
- **Chat command handlers** (`CommandHandlers.kt`).
  - `/start`, `/help`, `/subscribe`, `/unsubscribe` and `/mysubscriptions` each read the message text, make at most one tracker call and send one reply.

Modules:

- `Wrappers`: `Option`.
- `LinkedMaps`: Kotlin's `LinkedHashMap` as a sequence of entries with distinct keys. It covers `get`, the in-place `put`, `remove`, `getOrPut(..).addAll(..)` and `forEach`.
- `Subscriptions`: the `Subscription` record with its key-only `equals` and its JVM `hashCode`, the store as a value (`Table`), and the `SubscriptionManager` class that updates it in place.
- `Updates`:
  - the update run, specified by functions over the store (`TickUpdates`, `TickTable`, `TickRequests`);
  - the `IssueUpdateService`, `NotificationService` and `GitHubIssueTracker` classes, whose loops are proved against those functions.
- `UpdateProperties`: what a run delivers and which watermarks it writes, stated per chat, per repository and per issue.
- `Scenarios`: concrete runs from the repository's unit tests, plus runs that show the code's watermark behaviour.
- `Text`: Kotlin `split`, `joinToString`, `trim` and `toSet` on strings.
- `CommandHandlers`: the handlers as functions from (chat id, message text, tracker answer) to (tracker call, reply).

The GitHub client is a parameter. `Fetch(repository, since)` returns the issues, or `None` when the call throws. The notification callback is the sequence of (chat, issue) pairs it receives. The bot is not modelled; each handler returns the reply it would send.

Behaviour of the code worth noting:

- **Fetch boundary.** Each repository is fetched from the largest watermark of its group (`maxOfOrNull`, line 85).
- **No per-subscriber cut-off.**
  - Code: nothing compares an issue's number with the subscriber's watermark. Every fetched issue that passes the label filter is delivered.
  - The disabled test at `IssueUpdateServiceTest.kt:52-85` expects such a cut-off. `Scenarios.NoPerSubscriberCutoff` shows that the code has none.
- **Watermarks are not monotonic.**
  - The new watermark is the highest matching number of this fetch, even when it is below the old one (`Scenarios.WatermarkCanGoDown`).
  - Re-subscribing replaces the record and resets the watermark to none (`Subscriptions.AddedIsUpsert`).
- **Store constructor.** `SubscriptionManagerTest.kt` builds `SubscriptionManager(repository)`. The main code has only the no-argument in-memory store, and that is what is modelled.

## Model

| member | source | states |
|---|---|---|
| LinkedMaps.PutSpec | app/src/main/kotlin/io/github/vprud/SubscriptionManager.kt:36-37 | `m[k] = v` keeps keys distinct and binds `k` to `v`. Every other binding is unchanged. A new key goes last; an existing key keeps its place. |
| LinkedMaps.RemoveSpec | app/src/main/kotlin/io/github/vprud/SubscriptionManager.kt:45 | `remove(k)` keeps keys distinct and unbinds `k`. Every other binding is unchanged. Removing an absent key changes nothing. The size drops by one exactly when the key was present. |
| LinkedMaps.AppendAllSpec | app/src/main/kotlin/io/github/vprud/SubscriptionManager.kt:100 | After a series of `getOrPut(k){mutableListOf()}.addAll(xs)`, a key is bound exactly when it was bound before or was appended to. It is then bound to its old list followed by everything appended to it, in order. |
| LinkedMaps.AppendAllAt | app/src/main/kotlin/io/github/vprud/SubscriptionManager.kt:100 | The same, for one key (proved by induction over the appends). |
| LinkedMaps.PairsProject | app/src/main/kotlin/io/github/vprud/SubscriptionManager.kt:122-126 | The nested `forEach` over a map of lists visits, for each key, exactly that key's list, in order. |
| LinkedMaps.CollectKeys | app/src/main/kotlin/io/github/vprud/SubscriptionManager.kt:99-100 | When no appended list is empty, a key occurs among the appends exactly when something was appended to it. |
| Subscriptions.ToInt32 | app/src/main/kotlin/io/github/vprud/SubscriptionManager.kt:21-25 | JVM `Int` arithmetic: the result is in range and congruent to the exact value modulo 2^32. |
| Subscriptions.EqualsIsKeyEquality | app/src/main/kotlin/io/github/vprud/SubscriptionManager.kt:9-19 | Two subscriptions are equal exactly when their chat ids and repositories are. Labels and watermark play no part. |
| Subscriptions.EqualsHashConsistent | app/src/main/kotlin/io/github/vprud/SubscriptionManager.kt:21-25 | Equal subscriptions have equal hash codes. |
| Subscriptions.StoredUnderOwnKey | app/src/main/kotlin/io/github/vprud/SubscriptionManager.kt:36-37 | A stored subscription carries the chat id and repository it is stored under. |
| Subscriptions.HasIffGet | app/src/main/kotlin/io/github/vprud/SubscriptionManager.kt:60-68 | `hasSubscription` is true exactly when `getSubscription` returns a subscription. |
| Subscriptions.AddedIsUpsert | app/src/main/kotlin/io/github/vprud/SubscriptionManager.kt:31-38 | `addSubscription` stores a fresh record for the pair, replacing any old one, so the watermark is reset. No other pair changes. The chat's list grows by one exactly when the pair is new. Other chats' lists are unchanged. |
| Subscriptions.RemovedSpec | app/src/main/kotlin/io/github/vprud/SubscriptionManager.kt:40-46 | After `removeSubscription` the pair is gone and no other pair changes. Removing an absent pair leaves the store as it was. The chat's list shrinks by one exactly when the pair existed. |
| Subscriptions.WithWatermarkSpec | app/src/main/kotlin/io/github/vprud/SubscriptionManager.kt:52-58 | `updateLastChecked` sets the pair's watermark and leaves its chat, repository and labels as they were. No other pair changes. An absent pair leaves the store as it was. |
| Subscriptions.FlatValuesSpec | app/src/main/kotlin/io/github/vprud/SubscriptionManager.kt:50 | Flattening lists exactly the stored subscriptions, each (chat, repository) key once. |
| Subscriptions.AllSubscriptionsSpec | app/src/main/kotlin/io/github/vprud/SubscriptionManager.kt:50 | `getAllSubscriptions` lists exactly the stored subscriptions, with no key twice. |
| Subscriptions.UserSubscriptionsSpec | app/src/main/kotlin/io/github/vprud/SubscriptionManager.kt:48 | `getUserSubscriptions(c)` lists exactly chat `c`'s stored subscriptions, with no repository twice. |
| Subscriptions.SubscriptionManager.constructor | app/src/main/kotlin/io/github/vprud/SubscriptionManager.kt:28-29 | A new store is empty. |
| Subscriptions.SubscriptionManager.AddSubscription | app/src/main/kotlin/io/github/vprud/SubscriptionManager.kt:31-38 | The store becomes `Added(...)`. The pair now holds a fresh subscription and every other pair is unchanged. |
| Subscriptions.SubscriptionManager.RemoveSubscription | app/src/main/kotlin/io/github/vprud/SubscriptionManager.kt:40-46 | Returns whether the pair existed. The store becomes `Removed(...)`, the pair is gone, other pairs are unchanged, and on `false` nothing changes. |
| Subscriptions.SubscriptionManager.UpdateLastChecked | app/src/main/kotlin/io/github/vprud/SubscriptionManager.kt:52-58 | The store becomes `WithWatermark(...)`. Only the pair's watermark changes, and only when the pair exists. |
| Updates.Boundary | app/src/main/kotlin/io/github/vprud/SubscriptionManager.kt:85 | The fetch boundary is 0 for no subscriptions. Otherwise it is the largest watermark in the group, with an unset watermark counted as 0. |
| Updates.Filtered | app/src/main/kotlin/io/github/vprud/SubscriptionManager.kt:90-97 | The kept issues are exactly the fetched issues that have a label name among the subscription's labels. A subscription without labels keeps them all. |
| Updates.FilteredSingle | app/src/main/kotlin/io/github/vprud/SubscriptionManager.kt:91-96 | A single fetched issue is kept exactly when it matches the labels. |
| Updates.FilteredConcat | app/src/main/kotlin/io/github/vprud/SubscriptionManager.kt:91-96 | Filtering a concatenation gives the filtered parts concatenated. With the single-issue case, this means the filter keeps fetch order and repeated issues. |
| Updates.MaxNumber | app/src/main/kotlin/io/github/vprud/SubscriptionManager.kt:102 | `maxOf { it.number }` is at least every number and is attained. |
| Updates.GroupContributions | app/src/main/kotlin/io/github/vprud/SubscriptionManager.kt:89-105 | Every entry of a group carries a non-empty match list and names the group's repository. |
| Updates.FetchRequests | app/src/main/kotlin/io/github/vprud/SubscriptionManager.kt:83-87 | One fetch per repository group, in group order, each with the group's boundary. |
| Updates.IssueUpdateService.CheckForUpdates | app/src/main/kotlin/io/github/vprud/SubscriptionManager.kt:75-113 | The returned map is `TickUpdates` of the store before the run, and the store after the run is `TickTable` of it. The fetch calls made are `TickRequests`. |
| Updates.IssueUpdateService.CheckRepository | app/src/main/kotlin/io/github/vprud/SubscriptionManager.kt:84-109 | One repository group extends the update map and the watermark writes by exactly the group's entries. There are none when the fetch fails. The fetch uses the group's boundary. |
| Updates.Notify | app/src/main/kotlin/io/github/vprud/SubscriptionManager.kt:122-126 | The callback receives every (chat, issue) entry of the map in map order. For each chat it receives exactly that chat's list. |
| Updates.NotificationService.CheckAndNotify | app/src/main/kotlin/io/github/vprud/SubscriptionManager.kt:119-127 | The callback receives exactly the entries of `TickUpdates` of the store before the run, and the store ends as `TickTable`. |
| Updates.GitHubIssueTracker.constructor | app/src/main/kotlin/io/github/vprud/SubscriptionManager.kt:130-137 | The default wiring: the update service and the tracker share one new, empty store. |
| Updates.GitHubIssueTracker.Subscribe | app/src/main/kotlin/io/github/vprud/SubscriptionManager.kt:138-144 | Delegates to `addSubscription`. |
| Updates.GitHubIssueTracker.Unsubscribe | app/src/main/kotlin/io/github/vprud/SubscriptionManager.kt:146-149 | Delegates to `removeSubscription`; the result says whether the pair existed. |
| Updates.GitHubIssueTracker.GetSubscriptions | app/src/main/kotlin/io/github/vprud/SubscriptionManager.kt:151 | Exactly the chat's stored subscriptions. |
| Updates.GitHubIssueTracker.CheckForUpdates | app/src/main/kotlin/io/github/vprud/SubscriptionManager.kt:153-155 | The same callback entries and final store as `checkAndNotify`. |
| UpdateProperties.RepoSubs | app/src/main/kotlin/io/github/vprud/SubscriptionManager.kt:78-81 | A repository's group holds exactly the subscriptions to it. |
| UpdateProperties.ByRepositoryCollect | app/src/main/kotlin/io/github/vprud/SubscriptionManager.kt:78-81 | `groupBy { it.repository }` collects, for each repository, its subscriptions in list order. A repository is a key exactly when some subscription names it. |
| UpdateProperties.GroupsSpec | app/src/main/kotlin/io/github/vprud/SubscriptionManager.kt:78-81 | The groups have distinct repositories. Each group is exactly the repository's subscriptions. The repositories visited are exactly those subscribed to. |
| UpdateProperties.AllNoDuplicates | app/src/main/kotlin/io/github/vprud/SubscriptionManager.kt:50 | No subscription is listed twice. |
| UpdateProperties.RepoSubsNoDuplicates | app/src/main/kotlin/io/github/vprud/SubscriptionManager.kt:78-81 | No subscription is listed twice in a group. |
| UpdateProperties.RepoSubsStored | app/src/main/kotlin/io/github/vprud/SubscriptionManager.kt:78-81 | A subscription is in repository `r`'s group exactly when it is stored under its chat and `r`. |
| UpdateProperties.GroupFeed | app/src/main/kotlin/io/github/vprud/SubscriptionManager.kt:84-105 | From one repository a chat receives exactly the fetched issues that pass its subscription's filter. It receives nothing if it has no subscription or the fetch failed. |
| UpdateProperties.FeedOfGroups | app/src/main/kotlin/io/github/vprud/SubscriptionManager.kt:83-110 | Over all groups, a chat receives its per-repository feeds in repository order. |
| UpdateProperties.TickUpdatesSpec | app/src/main/kotlin/io/github/vprud/SubscriptionManager.kt:75-113 | The update map has distinct chats. A chat's entry is its feed over the repositories in visiting order, and there is no entry when the feed is empty. |
| UpdateProperties.TickUpdatesAt | app/src/main/kotlin/io/github/vprud/SubscriptionManager.kt:75-113 | The same, for one chat. |
| UpdateProperties.FeedPartMember | app/src/main/kotlin/io/github/vprud/SubscriptionManager.kt:87-97 | An issue is in a chat's feed from `r` exactly when the chat subscribes to `r`, the fetch succeeded and returned the issue, and the issue passes the filter. |
| UpdateProperties.ChatFeedMember | app/src/main/kotlin/io/github/vprud/SubscriptionManager.kt:83-100 | An issue is in a chat's whole feed exactly when it is in the feed from one of the repositories. |
| UpdateProperties.SubscribedIsVisited | app/src/main/kotlin/io/github/vprud/SubscriptionManager.kt:78-83 | Every subscribed repository is visited. |
| UpdateProperties.UpdatesMembership | app/src/main/kotlin/io/github/vprud/SubscriptionManager.kt:83-112 | An issue is in a chat's updates exactly when some subscription of that chat delivers it, in both directions. |
| UpdateProperties.UpdatesKeys | app/src/main/kotlin/io/github/vprud/SubscriptionManager.kt:99-100 | A chat has an entry exactly when something is delivered to it. |
| UpdateProperties.NotifiedFeed | app/src/main/kotlin/io/github/vprud/SubscriptionManager.kt:119-127 | The callback receives, for each chat, exactly its feed, in order. |
| UpdateProperties.GroupContributionsMember | app/src/main/kotlin/io/github/vprud/SubscriptionManager.kt:89-105 | A group entry exists exactly for a subscriber whose non-empty match list it carries. |
| UpdateProperties.ContributionsMember | app/src/main/kotlin/io/github/vprud/SubscriptionManager.kt:83-110 | An entry of the run is an entry of one of its groups. |
| UpdateProperties.ContributionSpec | app/src/main/kotlin/io/github/vprud/SubscriptionManager.kt:83-110 | The run produces an entry (chat, repository, issues) exactly when the pair is subscribed, the fetch succeeded, and `issues` is its non-empty match list. |
| UpdateProperties.ContributionSound | app/src/main/kotlin/io/github/vprud/SubscriptionManager.kt:83-110 | Every entry of the run is such an entry. |
| UpdateProperties.ContributionComplete | app/src/main/kotlin/io/github/vprud/SubscriptionManager.kt:83-110 | Every such entry is produced by the run. |
| UpdateProperties.ApplyWatermarksAt | app/src/main/kotlin/io/github/vprud/SubscriptionManager.kt:102-103 | Writing watermarks changes a pair only when an entry names it, and then only its watermark, set to the entry's highest issue number. |
| UpdateProperties.KeyedContributions | app/src/main/kotlin/io/github/vprud/SubscriptionManager.kt:99-104 | A pair gets an entry exactly when it is subscribed, its fetch succeeded and its match list is non-empty. |
| UpdateProperties.TickTableAt | app/src/main/kotlin/io/github/vprud/SubscriptionManager.kt:99-104 | After the run, a pair keeps its labels. Its watermark becomes the highest number among its matches when it had any, and is unchanged otherwise. |
| UpdateProperties.TickTableSpec | app/src/main/kotlin/io/github/vprud/SubscriptionManager.kt:99-104 | The same for every pair, and the store stays well formed. |
| UpdateProperties.RepositoriesSpec | app/src/main/kotlin/io/github/vprud/SubscriptionManager.kt:78-83 | A repository is visited exactly when some chat subscribes to it. |
| UpdateProperties.TickRequestsSpec | app/src/main/kotlin/io/github/vprud/SubscriptionManager.kt:83-87 | Each subscribed repository is fetched exactly once per run, in visiting order, with its group's boundary. |
| UpdateProperties.RepoBoundarySpec | app/src/main/kotlin/io/github/vprud/SubscriptionManager.kt:85 | A repository's boundary is at least every subscriber's watermark and equals one of them. It is 0 for a repository nobody subscribes to. |
| UpdateProperties.FailedFetchChangesNothing | app/src/main/kotlin/io/github/vprud/SubscriptionManager.kt:106-109 | When a repository's fetch throws, none of its subscriptions changes and no chat receives anything from it. |
| UpdateProperties.FetchIsolation | app/src/main/kotlin/io/github/vprud/SubscriptionManager.kt:83-110 | What one repository's fetch returns affects neither the feeds nor the watermarks of any other repository. |
| Scenarios.AddThenList | app/src/test/kotlin/io/github/vprud/SubscriptionManagerTest.kt:10-17 | After one subscribe, the chat has one subscription, to that repository. |
| Scenarios.ResubscribeOverwrites | app/src/test/kotlin/io/github/vprud/SubscriptionManagerTest.kt:19-27 | Subscribing again replaces the labels; the chat still has one subscription. |
| Scenarios.RemoveReports | app/src/test/kotlin/io/github/vprud/SubscriptionManagerTest.kt:29-43 | An existing pair is reported present and is gone after removal. An empty store reports it absent. |
| Scenarios.UpdateTouchesOnePair | app/src/test/kotlin/io/github/vprud/SubscriptionManagerTest.kt:45-54 | `updateLastChecked` sets the watermark of the named pair only. |
| Scenarios.AllSubscriptionsOfTwoChats | app/src/test/kotlin/io/github/vprud/SubscriptionManagerTest.kt:56-66 | `getAllSubscriptions` lists both chats' subscriptions in insertion order. |
| Scenarios.LabelFilters | app/src/test/kotlin/io/github/vprud/IssueUpdateServiceTest.kt:15-50 | A `bug` filter keeps issue 1, a `feature` filter keeps issue 2, and an empty filter keeps both. |
| Scenarios.LabelFanOut | app/src/test/kotlin/io/github/vprud/IssueUpdateServiceTest.kt:15-50 | Two chats on one repository with different labels each receive only their matching issue. Each watermark becomes that issue's number. |
| Scenarios.FailingFetchGivesNoUpdates | app/src/test/kotlin/io/github/vprud/IssueUpdateServiceTest.kt:87-98 | A throwing client yields an empty update map. |
| Scenarios.NoPerSubscriberCutoff | app/src/test/kotlin/io/github/vprud/IssueUpdateServiceTest.kt:52-85 | With watermarks 1 and 2, the boundary is 2 and both chats still receive issues 1 and 2. |
| Scenarios.MarkedAfterRun | app/src/main/kotlin/io/github/vprud/SubscriptionManager.kt:99-104 | In that run, chat 1's watermark becomes 2. |
| Scenarios.MarkedWatermark | app/src/main/kotlin/io/github/vprud/SubscriptionManager.kt:99-104 | The store after that run holds watermark 2 for chat 1. |
| Scenarios.LoweredAfterRun | app/src/main/kotlin/io/github/vprud/SubscriptionManager.kt:102-103 | When the fetch returns only issue 1, chat 2's watermark goes from 2 down to 1. |
| Scenarios.WatermarkCanGoDown | app/src/main/kotlin/io/github/vprud/SubscriptionManager.kt:102-103 | The store after that run holds the lowered watermark. |
| Scenarios.NotifyPerEntry | app/src/test/kotlin/io/github/vprud/NotificationServiceTest.kt:12-33 | The callback is called once per (chat, issue) entry, in order, repeats included. |
| Text.Split | app/src/main/kotlin/io/github/vprud/CommandHandlers.kt:51 | `split` always yields at least one piece. |
| Text.JoinSplit | app/src/main/kotlin/io/github/vprud/CommandHandlers.kt:51 | Joining the pieces with the delimiter gives back the string. |
| Text.SplitJoin | app/src/main/kotlin/io/github/vprud/CommandHandlers.kt:64 | Splitting the join of delimiter-free pieces gives back the pieces. |
| Text.SplitAt | app/src/main/kotlin/io/github/vprud/CommandHandlers.kt:51 | Splitting at a delimiter splits the two sides independently. |
| Text.SplitSingle | app/src/main/kotlin/io/github/vprud/CommandHandlers.kt:51-52 | A string splits into one piece exactly when it has no delimiter. |
| Text.JoinConcat | app/src/main/kotlin/io/github/vprud/CommandHandlers.kt:126-129 | Joining two non-empty lists puts one separator between their joins. |
| Text.JoinAvoids | app/src/main/kotlin/io/github/vprud/CommandHandlers.kt:126-129 | A character in no piece and not in the separator is not in the join. |
| Text.TrimStart | app/src/main/kotlin/io/github/vprud/CommandHandlers.kt:65 | Drops exactly the leading whitespace: what is dropped is whitespace and what is kept does not start with it. |
| Text.TrimEnd | app/src/main/kotlin/io/github/vprud/CommandHandlers.kt:65 | Drops exactly the trailing whitespace. |
| Text.TrimSpec | app/src/main/kotlin/io/github/vprud/CommandHandlers.kt:65 | `trim` keeps a contiguous slice. Everything cut from either end is whitespace, and the slice neither starts nor ends with whitespace. |
| Text.TrimIdempotent | app/src/main/kotlin/io/github/vprud/CommandHandlers.kt:65 | Trimming twice equals trimming once. |
| Text.Dedup | app/src/main/kotlin/io/github/vprud/CommandHandlers.kt:66 | `toSet` keeps exactly the same elements, each once. They are ordered by their first occurrence in the input, as a `LinkedHashSet` iterates. |
| Text.DedupDistinct | app/src/main/kotlin/io/github/vprud/CommandHandlers.kt:66 | A list without repeats is its own set, in the same order. |
| Text.DedupIdempotent | app/src/main/kotlin/io/github/vprud/CommandHandlers.kt:66 | Deduplicating twice equals deduplicating once. |
| CommandHandlers.HandleStart | app/src/main/kotlin/io/github/vprud/CommandHandlers.kt:17-29 | `/start` calls nothing and replies in Markdown with the greeting followed by the command list. |
| CommandHandlers.HandleHelp | app/src/main/kotlin/io/github/vprud/CommandHandlers.kt:31-43 | `/help` calls nothing and replies in Markdown with the command list, which is the welcome text without its greeting. |
| CommandHandlers.Args | app/src/main/kotlin/io/github/vprud/CommandHandlers.kt:51 | There are no arguments exactly when the text is absent or has no space. |
| CommandHandlers.TrimAll | app/src/main/kotlin/io/github/vprud/CommandHandlers.kt:65 | Each piece is trimmed, position by position. |
| CommandHandlers.ParseLabels | app/src/main/kotlin/io/github/vprud/CommandHandlers.kt:61-66 | The labels are distinct and are exactly the trimmed comma-separated pieces. They are ordered by each piece's first occurrence. |
| CommandHandlers.ParsedLabelsTrimmed | app/src/main/kotlin/io/github/vprud/CommandHandlers.kt:61-66 | No parsed label has whitespace at either end. |
| CommandHandlers.ParseLabelsJoin | app/src/main/kotlin/io/github/vprud/CommandHandlers.kt:61-66 | Distinct, trimmed, comma-free labels joined with commas parse back to the same list. |
| CommandHandlers.HandleSubscribe | app/src/main/kotlin/io/github/vprud/CommandHandlers.kt:45-83 | Without arguments: the usage reply and no call. Otherwise it calls `subscribe` for the chat, with `args[0]` as the repository and the parsed second argument as the labels (none without one). It replies with the confirmation (labels named only when there are some) or, when the call threw, with the error text. |
| CommandHandlers.HandleUnsubscribe | app/src/main/kotlin/io/github/vprud/CommandHandlers.kt:85-108 | Without arguments: the usage reply and no call. Otherwise it calls `unsubscribe` for the chat with `args[0]` as the repository, and replies according to the returned flag. |
| CommandHandlers.HandleMySubscriptions | app/src/main/kotlin/io/github/vprud/CommandHandlers.kt:110-136 | Always calls `getSubscriptions` for the chat. The reply is the no-subscriptions text exactly when the list is empty. Otherwise it is the listing: the header, then one repository-and-labels block per subscription. |
| CommandHandlers.ArgsOfWords | app/src/main/kotlin/io/github/vprud/CommandHandlers.kt:51 | A command word followed by space-free words has exactly those words as arguments. |
| CommandHandlers.SubscribeRoundTrip | app/src/main/kotlin/io/github/vprud/CommandHandlers.kt:45-83 | `/subscribe <repo> <l1,l2,...>` subscribes exactly `repo` with exactly those labels. The reply names them. |
| CommandHandlers.ExtraArgumentsIgnored | app/src/main/kotlin/io/github/vprud/CommandHandlers.kt:60-66 | Arguments after the labels change nothing. |
| CommandHandlers.UnsubscribeRoundTrip | app/src/main/kotlin/io/github/vprud/CommandHandlers.kt:85-108 | `/unsubscribe <repo>` unsubscribes exactly `repo`. |
| CommandHandlers.BlockLines | app/src/main/kotlin/io/github/vprud/CommandHandlers.kt:126-129 | The listing body has three lines per subscription, less one. |
| CommandHandlers.BlockLinesAt | app/src/main/kotlin/io/github/vprud/CommandHandlers.kt:126-129 | Subscription `k`'s repository line and labels line are lines `3k` and `3k+1`, followed by a blank line unless it is the last. |
| CommandHandlers.BlocksAsLines | app/src/main/kotlin/io/github/vprud/CommandHandlers.kt:126-129 | Blocks joined by a blank line are the blocks' lines joined by line breaks. |
| CommandHandlers.ListingLines | app/src/main/kotlin/io/github/vprud/CommandHandlers.kt:125-133 | Read line by line, the listing is the header, a blank line, then the blocks' lines. This holds when no repository or label contains a line break. |
| CommandHandlers.MySubscriptionsAgainstStore | app/src/main/kotlin/io/github/vprud/CommandHandlers.kt:116-123 | Given what the store returns for the chat, the reply says there are no subscriptions exactly when the chat has none. |
| CommandHandlers.UnsubscribeAgainstStore | app/src/main/kotlin/io/github/vprud/CommandHandlers.kt:100-106 | Given what the store returns, the removal is confirmed exactly when the chat was subscribed, and afterwards it is not. |

## Left out

- The GitHub client (`GitHubClient.kt`) is not part of this model. It is an oracle from (repository, boundary) to issues or failure. The boundary each fetch is called with is recorded (`TickRequests`); what the client does with it is not modelled.
- Only a fetch can fail in the model. An exception from the notification callback, or from `bot.sendMessage` inside the subscribe handler's `try`, is not modelled.
- The `println` in the update loop's `catch` is I/O and is left out.
- The recurring check (`IssueUpdateChecker.kt`), the Telegram service (`TelegramBotService.kt`) and the database-backed repositories and tables are not part of this model.
- The store holds `Subscription` objects by reference, and `updateLastChecked` mutates the shared object. The model stores values.
  - The results are the same, because a run reads a group's watermarks only before it writes any of them.
  - Aliasing of the lists returned to callers is not captured.
- `Subscription.equals` also rejects objects of other classes (`javaClass` check). The model compares only subscriptions.
- A `Set<String>` of labels is a sequence. Nothing in the store forbids repeats. The handlers only pass duplicate-free lists, in insertion order as a `LinkedHashSet` iterates (`CommandHandlers.ParseLabels`).
- A `GitHubIssue` has only its number, its label names and its repository URL. Its other fields are never read by the core.
- Strings are sequences of Unicode scalar values; the JVM stores UTF-16 code units.
  - The only character outside the Basic Multilingual Plane in the core is the greeting's U+1F44B. It is one character here and two code units on the JVM.
  - Splitting on a space or a comma, trimming and `hashCode` (which encodes to UTF-16 explicitly) are unaffected.
- `GitHubIssueTracker`'s optional constructor arguments are not modelled. Only its default wiring, one shared store, is.
- The handlers' literal test inputs (`CommandHandlersTest.kt`) are not restated as separate lemmas. The round-trip lemmas state the same replies for every repository and label list.
- The message entity is reduced to its chat id and optional text. The reply is reduced to chat id, text and whether it is Markdown.
