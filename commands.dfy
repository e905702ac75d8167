/**
  The chat command handlers of CommandHandlers.kt.  Each handler is a function from the
  message (chat id and optional text) and what the tracker answered, to the tracker call it
  makes and the one reply it sends.
*/
module CommandHandlers {
  import opened Wrappers
  import opened Text
  import opened Subscriptions

  /** `bot.sendMessage(chatId, text, parseMode)`; `markdown` is set by the start and help replies. */
  datatype Reply = Reply(chatId: Int64, text: string, markdown: bool)

  /** The `GitHubIssueTracker` method a handler calls. */
  datatype Call =
    | Subscribe(chatId: Int64, repository: string, labels: seq<string>)
    | Unsubscribe(chatId: Int64, repository: string)
    | GetSubscriptions(chatId: Int64)

  datatype Outcome = Outcome(call: Option<Call>, reply: Reply)

  /** How `tracker.subscribe` ended: normally, or by an exception with an optional message. */
  datatype Attempt = Succeeded | Threw(message: Option<string>)

  // ---------------------------------------------------------------------------
  // BotMessages

  const Greeting: string := "Hi \U{1F44B}\n\nI'm a bot for tracking new GitHub repository issues.\n\n"

  const CommandList: string :=
    "Available commands:\n\n"
    + "/subscribe <owner/repo> \\[labels] - subscribe to repository updates (tags separated by commas)\n"
    + "/unsubscribe <owner/repo> - unsubscribe from a repository\n"
    + "/mysubscriptions - show current subscriptions\n"
    + "/help - show this message"

  /** `WELCOME_MESSAGE`: the greeting, then the same command list `/help` sends. */
  const WelcomeMessage: string := Greeting + CommandList

  const SubscribeUsage: string := "Usage: /subscribe <owner/repo> [tags]"
  const UnsubscribeUsage: string := "Usage: /unsubscribe <owner/repo>"
  const NoSubscriptions: string := "You have no active subscriptions"

  // ---------------------------------------------------------------------------
  // Start and help

  /** `StartCommandHandler`: the welcome text as Markdown; the tracker is not called. */
  function HandleStart(chatId: Int64): (o: Outcome)
    ensures o.call.None?
    ensures o.reply.chatId == chatId && o.reply.markdown
    ensures o.reply.text == Greeting + CommandList
  {
    Outcome(None, Reply(chatId, WelcomeMessage, true))
  }

  /** `HelpCommandHandler`: the command list as Markdown; the tracker is not called. */
  function HandleHelp(chatId: Int64): (o: Outcome)
    ensures o.call.None? && o.reply.markdown && o.reply.chatId == chatId
    ensures HandleStart(chatId).reply.text == Greeting + o.reply.text
  {
    Outcome(None, Reply(chatId, CommandList, true))
  }

  // ---------------------------------------------------------------------------
  // Parsing

  /** `message.text?.split(" ")?.drop(1) ?: emptyList()` */
  function Args(text: Option<string>): (args: seq<string>)
    ensures text.None? ==> args == []
    ensures text.Some? ==> (args == [] <==> ' ' !in text.value)
  {
    match text
    case None => []
    case Some(t) =>
      SplitSingle(t, ' ');
      Split(t, ' ')[1..]
  }

  /** `?.map { it.trim() }` */
  function TrimAll(parts: seq<string>): (r: seq<string>)
    ensures |r| == |parts| && forall k :: 0 <= k < |parts| ==> r[k] == Trim(parts[k])
    ensures forall l :: l in r <==> exists p :: p in parts && Trim(p) == l
  {
    seq(|parts|, k requires 0 <= k < |parts| => Trim(parts[k]))
  }

  /**
    `arg.split(",").map { it.trim() }.toSet()`: the comma-separated names, trimmed, each once,
    in order of first appearance.
  */
  function ParseLabels(arg: string): (labels: seq<string>)
    ensures Distinct(labels)
    ensures forall l :: l in labels <==> exists p :: p in Split(arg, ',') && Trim(p) == l
    ensures forall l :: l in labels <==> l in TrimAll(Split(arg, ','))
    ensures forall i, j :: 0 <= i < j < |labels| ==>
      FirstIndex(TrimAll(Split(arg, ',')), labels[i]) < FirstIndex(TrimAll(Split(arg, ',')), labels[j])
  {
    Dedup(TrimAll(Split(arg, ',')))
  }

  /** No parsed label has whitespace at either end. */
  lemma ParsedLabelsTrimmed(arg: string, l: string)
    requires l in ParseLabels(arg)
    ensures Trim(l) == l
  {
    var p :| p in Split(arg, ',') && Trim(p) == l;
    TrimIdempotent(p);
  }

  /** The labels argument of a subscribe command: the second argument, or none. */
  function LabelsArg(args: seq<string>): seq<string> {
    if |args| > 1 then ParseLabels(args[1]) else []
  }

  // ---------------------------------------------------------------------------
  // Replies

  /** `labels.joinToString()` */
  function JoinLabels(labels: seq<string>): string {
    Join(labels, ", ")
  }

  /** The reply after a successful subscribe: the labels are named only when there are some. */
  function SubscribedText(repo: string, labels: seq<string>): string {
    "Subscribed to " + repo + (if labels != [] then " with labels: " + JoinLabels(labels) else "")
  }

  /** The reply when `tracker.subscribe` threw. */
  function ErrorText(message: Option<string>): string {
    "Error: " + message.GetOr("Failed to subscribe")
  }

  function UnsubscribedText(repo: string, removed: bool): string {
    if removed then "Unsubscribed from " + repo else "You were not subscribed to " + repo
  }

  /** `sub.labels.joinToString()`, or `all` for a subscription without a filter. */
  function LabelsText(labels: seq<string>): string {
    if labels == [] then "all" else JoinLabels(labels)
  }

  function RepositoryLine(s: Subscription): string {
    "Repository: " + s.repository
  }

  function LabelsLine(s: Subscription): string {
    "Labels: " + LabelsText(s.labels)
  }

  /** The block of one subscription in the listing: its repository line and its labels line. */
  function Block(s: Subscription): string {
    RepositoryLine(s) + "\n" + LabelsLine(s)
  }

  function Blocks(subs: seq<Subscription>): (bs: seq<string>)
    ensures |bs| == |subs| && forall k :: 0 <= k < |subs| ==> bs[k] == Block(subs[k])
  {
    seq(|subs|, k requires 0 <= k < |subs| => Block(subs[k]))
  }

  /** The reply to `/mysubscriptions` for a non-empty list. */
  function Listing(subs: seq<Subscription>): string {
    "Your subscriptions:\n\n" + Join(Blocks(subs), "\n\n")
  }

  // ---------------------------------------------------------------------------
  // Handlers

  /** `SubscribeCommandHandler` */
  function HandleSubscribe(chatId: Int64, text: Option<string>, attempt: Attempt): (o: Outcome)
    ensures o.reply.chatId == chatId && !o.reply.markdown
    ensures o.call.None? <==> text.None? || ' ' !in text.value
    ensures o.call.None? ==> o.reply.text == SubscribeUsage
    ensures o.call.Some? ==> o.call.value.Subscribe? && o.call.value.chatId == chatId
    ensures o.call.Some? ==>
      o.call.value.repository == Args(text)[0] && o.call.value.labels == LabelsArg(Args(text))
    ensures o.call.Some? ==> o.reply.text == match attempt
      case Succeeded => SubscribedText(o.call.value.repository, o.call.value.labels)
      case Threw(m) => ErrorText(m)
  {
    var args := Args(text);
    if args == [] then Outcome(None, Reply(chatId, SubscribeUsage, false))
    else
      var repo, labels := args[0], LabelsArg(args);
      var reply := match attempt
        case Succeeded => SubscribedText(repo, labels)
        case Threw(m) => ErrorText(m);
      Outcome(Some(Subscribe(chatId, repo, labels)), Reply(chatId, reply, false))
  }

  /** `UnsubscribeCommandHandler`; `removed` is what `tracker.unsubscribe` returned. */
  function HandleUnsubscribe(chatId: Int64, text: Option<string>, removed: bool): (o: Outcome)
    ensures o.reply.chatId == chatId && !o.reply.markdown
    ensures o.call.None? <==> text.None? || ' ' !in text.value
    ensures o.call.None? ==> o.reply.text == UnsubscribeUsage
    ensures o.call.Some? ==> o.call.value.Unsubscribe? && o.call.value.chatId == chatId
    ensures o.call.Some? ==> o.call.value.repository == Args(text)[0]
    ensures o.call.Some? ==> o.reply.text == UnsubscribedText(o.call.value.repository, removed)
  {
    var args := Args(text);
    if args == [] then Outcome(None, Reply(chatId, UnsubscribeUsage, false))
    else Outcome(Some(Unsubscribe(chatId, args[0])), Reply(chatId, UnsubscribedText(args[0], removed), false))
  }

  /** `MySubscriptionsCommandHandler`; `subs` is what `tracker.getSubscriptions` returned. */
  function HandleMySubscriptions(chatId: Int64, subs: seq<Subscription>): (o: Outcome)
    ensures o.call == Some(GetSubscriptions(chatId))
    ensures o.reply.chatId == chatId && !o.reply.markdown
    ensures o.reply.text == NoSubscriptions <==> subs == []
    ensures subs != [] ==> o.reply.text == Listing(subs)
  {
    var text := if subs == [] then NoSubscriptions else Listing(subs);
    assert subs != [] ==> text[..|"Your"|] == "Your";
    Outcome(Some(GetSubscriptions(chatId)), Reply(chatId, text, false))
  }

  // ---------------------------------------------------------------------------
  // Reading commands back

  /** A repository argument as a user types it: one word. */
  predicate IsWord(w: string) {
    ' ' !in w
  }

  /** A label as a user types it: one word, no comma, no whitespace at either end. */
  predicate IsLabel(l: string) {
    IsWord(l) && ',' !in l && Trim(l) == l
  }

  /** The command a user types to subscribe `repo` with `labels`. */
  function SubscribeCommand(repo: string, labels: seq<string>): string {
    "/subscribe " + repo + (if labels == [] then "" else " " + Join(labels, ","))
  }

  /** Labels written with commas are read back unchanged. */
  lemma ParseLabelsJoin(labels: seq<string>)
    requires labels != [] && Distinct(labels)
    requires forall k :: 0 <= k < |labels| ==> IsLabel(labels[k])
    ensures ParseLabels(Join(labels, ",")) == labels
  {
    SplitJoin(labels, ',');
    assert TrimAll(labels) == labels;
    DedupDistinct(labels);
  }

  /** The arguments of a command word followed by space-free words are those words. */
  lemma ArgsOfWords(command: string, words: seq<string>)
    requires IsWord(command) && words != []
    requires forall k :: 0 <= k < |words| ==> IsWord(words[k])
    ensures Args(Some(Join([command] + words, " "))) == words
  {
    var all := [command] + words;
    forall k | 0 <= k < |all|
      ensures ' ' !in all[k]
    {
      if k > 0 {
        assert all[k] == words[k - 1] && IsWord(words[k - 1]);
      }
    }
    assert " " == [' '];
    SplitJoin(all, ' ');
    assert all[1..] == words;
  }

  /** The subscribe command is the command word and its arguments joined by spaces. */
  lemma SubscribeCommandWords(repo: string, labels: seq<string>)
    ensures labels == [] ==> SubscribeCommand(repo, labels) == Join(["/subscribe", repo], " ")
    ensures labels != [] ==> SubscribeCommand(repo, labels) == Join(["/subscribe", repo, Join(labels, ",")], " ")
  {
    assert "/subscribe " == "/subscribe" + " ";
    JoinTwo("/subscribe", repo, " ");
    JoinThree("/subscribe", repo, Join(labels, ","), " ");
  }

  /**
    Typing `/subscribe <repo> <l1,l2,...>` makes the handler subscribe exactly that repository
    with exactly those labels, and the reply names them.
  */
  lemma SubscribeRoundTrip(chatId: Int64, repo: string, labels: seq<string>)
    requires IsWord(repo) && Distinct(labels)
    requires forall k :: 0 <= k < |labels| ==> IsLabel(labels[k])
    ensures HandleSubscribe(chatId, Some(SubscribeCommand(repo, labels)), Succeeded) ==
      Outcome(Some(Subscribe(chatId, repo, labels)), Reply(chatId, SubscribedText(repo, labels), false))
  {
    SubscribeCommandWords(repo, labels);
    assert IsWord("/subscribe");
    if labels == [] {
      ArgsOfWords("/subscribe", [repo]);
      assert ["/subscribe"] + [repo] == ["/subscribe", repo];
    } else {
      var j := Join(labels, ",");
      JoinAvoids(labels, ",", ' ');
      ArgsOfWords("/subscribe", [repo, j]);
      assert ["/subscribe"] + [repo, j] == ["/subscribe", repo, j];
      ParseLabelsJoin(labels);
    }
  }

  /** Arguments after the labels argument are ignored. */
  lemma ExtraArgumentsIgnored(chatId: Int64, text: string, extra: string, attempt: Attempt)
    requires |Args(Some(text))| >= 2
    ensures HandleSubscribe(chatId, Some(text + " " + extra), attempt) == HandleSubscribe(chatId, Some(text), attempt)
  {
    SplitAt(text, extra, ' ');
    assert text + " " + extra == text + [' '] + extra;
    var a, a' := Args(Some(text)), Args(Some(text + " " + extra));
    assert a'[0] == a[0] && a'[1] == a[1];
  }

  /** Typing `/unsubscribe <repo>` makes the handler unsubscribe exactly that repository. */
  lemma UnsubscribeRoundTrip(chatId: Int64, repo: string, removed: bool)
    requires IsWord(repo)
    ensures HandleUnsubscribe(chatId, Some("/unsubscribe " + repo), removed) ==
      Outcome(Some(Unsubscribe(chatId, repo)), Reply(chatId, UnsubscribedText(repo, removed), false))
  {
    assert "/unsubscribe " == "/unsubscribe" + " ";
    JoinTwo("/unsubscribe", repo, " ");
    assert IsWord("/unsubscribe");
    ArgsOfWords("/unsubscribe", [repo]);
    assert ["/unsubscribe"] + [repo] == ["/unsubscribe", repo];
  }

  // ---------------------------------------------------------------------------
  // Reading the listing back

  /** The lines of the blocks: a repository line and a labels line per subscription, a blank line between blocks. */
  function BlockLines(subs: seq<Subscription>): (lines: seq<string>)
    requires subs != []
    ensures |lines| == 3 * |subs| - 1
  {
    var last := subs[|subs| - 1];
    if |subs| == 1 then [RepositoryLine(last), LabelsLine(last)]
    else BlockLines(subs[..|subs| - 1]) + ["", RepositoryLine(last), LabelsLine(last)]
  }

  /** Subscription `k` is on lines `3k` and `3k + 1` of the blocks, and a blank line follows unless it is the last. */
  lemma {:induction false} BlockLinesAt(subs: seq<Subscription>, k: nat)
    requires k < |subs|
    ensures BlockLines(subs)[3 * k] == RepositoryLine(subs[k])
    ensures BlockLines(subs)[3 * k + 1] == LabelsLine(subs[k])
    ensures k < |subs| - 1 ==> BlockLines(subs)[3 * k + 2] == ""
  {
    if k < |subs| - 1 {
      var init := subs[..|subs| - 1];
      assert subs[k] == init[k];
      BlockLinesAt(init, k);
    }
  }

  /** A character in no line of any block is in no line of the blocks. */
  lemma {:induction false} BlockLinesAvoid(subs: seq<Subscription>, c: char)
    requires subs != []
    requires forall k :: 0 <= k < |subs| ==> c !in RepositoryLine(subs[k]) && c !in LabelsLine(subs[k])
    ensures forall i :: 0 <= i < |BlockLines(subs)| ==> c !in BlockLines(subs)[i]
  {
    if |subs| > 1 {
      BlockLinesAvoid(subs[..|subs| - 1], c);
    }
  }

  lemma BlocksSnoc(subs: seq<Subscription>)
    requires |subs| > 1
    ensures Join(Blocks(subs), "\n\n") == Join(Blocks(subs[..|subs| - 1]), "\n\n") + "\n\n" + Block(subs[|subs| - 1])
  {
    assert Blocks(subs) == Blocks(subs[..|subs| - 1]) + [Block(subs[|subs| - 1])];
    JoinSnoc(Blocks(subs[..|subs| - 1]), Block(subs[|subs| - 1]), "\n\n");
  }

  lemma BlockLinesSnoc(subs: seq<Subscription>)
    requires |subs| > 1
    ensures var last := subs[|subs| - 1];
      Join(BlockLines(subs), "\n") ==
      Join(BlockLines(subs[..|subs| - 1]), "\n") + "\n" + ("" + "\n" + RepositoryLine(last) + "\n" + LabelsLine(last))
  {
    var last := subs[|subs| - 1];
    JoinConcat(BlockLines(subs[..|subs| - 1]), ["", RepositoryLine(last), LabelsLine(last)], "\n");
    JoinThree("", RepositoryLine(last), LabelsLine(last), "\n");
  }

  /** One more block adds a blank line and the block's two lines. */
  lemma Glue(x: string, r: string, l: string)
    ensures x + "\n\n" + (r + "\n" + l) == x + "\n" + ("" + "\n" + r + "\n" + l)
  {
    assert "\n\n" == "\n" + "\n";
  }

  lemma {:induction false} BlocksAsLines(subs: seq<Subscription>)
    requires subs != []
    ensures Join(Blocks(subs), "\n\n") == Join(BlockLines(subs), "\n")
  {
    var last := subs[|subs| - 1];
    if |subs| == 1 {
      JoinTwo(RepositoryLine(last), LabelsLine(last), "\n");
    } else {
      BlocksAsLines(subs[..|subs| - 1]);
      BlocksSnoc(subs);
      BlockLinesSnoc(subs);
      Glue(Join(BlockLines(subs[..|subs| - 1]), "\n"), RepositoryLine(last), LabelsLine(last));
    }
  }

  /** A line of the listing holds no line break when no repository and no label does. */
  lemma ListingLinesAvoid(subs: seq<Subscription>)
    requires subs != []
    requires forall k :: 0 <= k < |subs| ==> '\n' !in subs[k].repository
    requires forall k, j :: 0 <= k < |subs| && 0 <= j < |subs[k].labels| ==> '\n' !in subs[k].labels[j]
    ensures forall i :: 0 <= i < |BlockLines(subs)| ==> '\n' !in BlockLines(subs)[i]
  {
    forall k | 0 <= k < |subs|
      ensures '\n' !in RepositoryLine(subs[k]) && '\n' !in LabelsLine(subs[k])
    {
      var s := subs[k];
      if s.labels != [] {
        JoinAvoids(s.labels, ", ", '\n');
      }
    }
    BlockLinesAvoid(subs, '\n');
  }

  /** The listing is its header, a blank line and the lines of the blocks, joined by line breaks. */
  lemma ListingJoin(subs: seq<Subscription>)
    requires subs != []
    ensures Listing(subs) == Join(["Your subscriptions:", ""] + BlockLines(subs), "\n")
  {
    BlocksAsLines(subs);
    JoinConcat(["Your subscriptions:", ""], BlockLines(subs), "\n");
    JoinTwo("Your subscriptions:", "", "\n");
    assert "Your subscriptions:\n\n" == "Your subscriptions:" + "\n" + "" + "\n";
  }

  /**
    Read line by line, the listing is its header, a blank line, then the lines of the blocks —
    provided no repository or label contains a line break.
  */
  lemma ListingLines(subs: seq<Subscription>)
    requires subs != []
    requires forall k :: 0 <= k < |subs| ==> '\n' !in subs[k].repository
    requires forall k, j :: 0 <= k < |subs| && 0 <= j < |subs[k].labels| ==> '\n' !in subs[k].labels[j]
    ensures Split(Listing(subs), '\n') == ["Your subscriptions:", ""] + BlockLines(subs)
  {
    ListingJoin(subs);
    ListingLinesAvoid(subs);
    assert '\n' !in "Your subscriptions:";
    SplitJoin(["Your subscriptions:", ""] + BlockLines(subs), '\n');
  }

  // ---------------------------------------------------------------------------
  // Against the store

  /**
    With what `getSubscriptions` returns for the chat, `/mysubscriptions` answers that there are
    none exactly when the store holds no subscription of that chat.
  */
  lemma MySubscriptionsAgainstStore(t: Table, chatId: Int64)
    requires t.Valid()
    ensures HandleMySubscriptions(chatId, t.GetUserSubscriptions(chatId)).reply.text == NoSubscriptions <==>
      forall r :: !t.HasSubscription(chatId, r)
  {
    var subs := t.GetUserSubscriptions(chatId);
    UserSubscriptionsSpec(t, chatId);
    AllSubscriptionsSpec(t);
    if subs != [] {
      var s := subs[0];
      assert s in subs;
      HasIffGet(t, chatId, s.repository);
    }
    forall r | t.HasSubscription(chatId, r)
      ensures subs != []
    {
      HasIffGet(t, chatId, r);
      StoredUnderOwnKey(t, chatId, r);
      assert t.GetSubscription(chatId, r).value in subs;
    }
  }

  /**
    With what `unsubscribe` returns, `/unsubscribe <repo>` confirms the removal exactly when the
    chat was subscribed to `repo`, and afterwards it is not.
  */
  lemma UnsubscribeAgainstStore(t: Table, chatId: Int64, repo: string)
    requires t.Valid() && IsWord(repo)
    ensures var o := HandleUnsubscribe(chatId, Some("/unsubscribe " + repo), t.HasSubscription(chatId, repo));
      && o.call == Some(Unsubscribe(chatId, repo))
      && (o.reply.text == "Unsubscribed from " + repo <==> t.HasSubscription(chatId, repo))
      && !t.Removed(chatId, repo).HasSubscription(chatId, repo)
  {
    UnsubscribeRoundTrip(chatId, repo, t.HasSubscription(chatId, repo));
    RemovedSpec(t, chatId, repo);
    assert ("You were not subscribed to " + repo)[0] != ("Unsubscribed from " + repo)[0];
  }
}
