/**
  The subscription record and the in-memory subscription store
  (`Subscription` and `SubscriptionManager` in SubscriptionManager.kt).
*/
module Subscriptions {
  import opened Wrappers
  import opened LinkedMaps

  /** JVM `Int` and `Long` ranges. */
  predicate IsInt32(x: int) { -0x8000_0000 <= x < 0x8000_0000 }
  predicate IsInt64(x: int) { -0x8000_0000_0000_0000 <= x < 0x8000_0000_0000_0000 }
  type Int32 = x: int | IsInt32(x)
  type Int64 = x: int | IsInt64(x)

  /** The JVM's wrapping conversion of an exact integer to `Int`. */
  function ToInt32(x: int): (r: Int32)
    ensures (x - r) % 0x1_0000_0000 == 0
  {
    (x + 0x8000_0000) % 0x1_0000_0000 - 0x8000_0000
  }

  /** `Long.hashCode()`: `(value xor (value ushr 32)).toInt()`. */
  function LongHash(v: Int64): Int32 {
    var bits := v % 0x1_0000_0000_0000_0000;
    var lo := (bits % 0x1_0000_0000) as bv32;
    var hi := (bits / 0x1_0000_0000) as bv32;
    ToInt32((lo ^ hi) as int)
  }

  /** The UTF-16 code units the JVM stores for one character. */
  function Utf16Units(c: char): seq<int> {
    var n := c as int;
    if n < 0x1_0000 then [n]
    else [0xD800 + (n - 0x1_0000) / 0x400, 0xDC00 + (n - 0x1_0000) % 0x400]
  }

  function Utf16(s: string): seq<int> {
    if s == [] then [] else Utf16(s[..|s| - 1]) + Utf16Units(s[|s| - 1])
  }

  /** `h = 31 * h + unit` over the code units, in wrapping `Int` arithmetic. */
  function HashUnits(units: seq<int>): Int32 {
    if units == [] then 0 else ToInt32(31 * HashUnits(units[..|units| - 1]) + units[|units| - 1])
  }

  /** `String.hashCode()` */
  function StringHash(s: string): Int32 {
    HashUnits(Utf16(s))
  }

  /**
    `data class Subscription(chatId, repository, labels, lastCheckedIssueId)`.
    `labels` is a Kotlin `Set<String>`, held as a sequence in iteration order; the handlers
    only pass duplicate-free ones (`CommandHandlers.ParseLabels`).
  */
  datatype Subscription = Subscription(
    chatId: Int64,
    repository: string,
    labels: seq<string>,
    lastCheckedIssueId: Option<Int32>)
  {
    /** The overridden `equals`: only chat id and repository are compared. */
    predicate Equals(other: Subscription) {
      chatId == other.chatId && repository == other.repository
    }

    /** The overridden `hashCode`: `31 * chatId.hashCode() + repository.hashCode()` as `Int`. */
    function HashCode(): Int32 {
      ToInt32(31 * LongHash(chatId) + StringHash(repository))
    }
  }

  /** Two subscriptions are equal exactly when their (chat, repository) keys are;
      labels and watermark play no part. */
  lemma EqualsIsKeyEquality(a: Subscription, b: Subscription)
    ensures a.Equals(b) <==> (a.chatId, a.repository) == (b.chatId, b.repository)
    ensures a.Equals(a.(labels := b.labels, lastCheckedIssueId := b.lastCheckedIssueId))
  {
  }

  /** `equals` and `hashCode` agree: equal subscriptions hash equally. */
  lemma EqualsHashConsistent(a: Subscription, b: Subscription)
    requires a.Equals(b)
    ensures a.HashCode() == b.HashCode()
  {
  }

  /** Every stored subscription sits under its own chat id and repository. */
  predicate ChatValid(c: Int64, repos: LinkedMap<string, Subscription>) {
    && LinkedMaps.Valid(repos)
    && forall j :: 0 <= j < |repos| ==> repos[j].1.chatId == c && repos[j].1.repository == repos[j].0
  }

  /** `subscriptions.flatMap { it.value.values }` */
  function FlatValues(chats: LinkedMap<Int64, LinkedMap<string, Subscription>>): seq<Subscription> {
    if chats == [] then []
    else FlatValues(chats[..|chats| - 1]) + Values(chats[|chats| - 1].1)
  }

  /**
    The store's nested map `mutableMapOf<Long, MutableMap<String, Subscription>>()`:
    chat id, then repository, then the subscription; both levels keep insertion order.
  */
  datatype Table = Table(chats: LinkedMap<Int64, LinkedMap<string, Subscription>>) {

    predicate Valid() {
      && LinkedMaps.Valid(chats)
      && forall i :: 0 <= i < |chats| ==> ChatValid(chats[i].0, chats[i].1)
    }

    /** `getSubscription`: `subscriptions[chatId]?.get(repository)` */
    function GetSubscription(chatId: Int64, repository: string): Option<Subscription> {
      match Get(chats, chatId)
      case None => None
      case Some(repos) => Get(repos, repository)
    }

    /** `hasSubscription`: `subscriptions[chatId]?.containsKey(repository) ?: false` */
    predicate HasSubscription(chatId: Int64, repository: string) {
      match Get(chats, chatId)
      case None => false
      case Some(repos) => repository in Keys(repos)
    }

    /** `getUserSubscriptions`: `subscriptions[chatId]?.values?.toList() ?: emptyList()` */
    function GetUserSubscriptions(chatId: Int64): seq<Subscription> {
      match Get(chats, chatId)
      case None => []
      case Some(repos) => Values(repos)
    }

    /** `getAllSubscriptions` */
    function GetAllSubscriptions(): seq<Subscription> {
      FlatValues(chats)
    }

    /** The store after `addSubscription`: `getOrPut(chatId) { mutableMapOf() }[repository] = Subscription(...)`. */
    function Added(chatId: Int64, repository: string, labels: seq<string>): Table {
      var repos := Get(chats, chatId).GetOr([]);
      Table(Put(chats, chatId, Put(repos, repository, Subscription(chatId, repository, labels, None))))
    }

    /** The store after `removeSubscription`; a chat whose last subscription goes keeps its (empty) entry. */
    function Removed(chatId: Int64, repository: string): Table {
      match Get(chats, chatId)
      case None => this
      case Some(repos) => Table(Put(chats, chatId, Remove(repos, repository)))
    }

    /** The store after `updateLastChecked`: `subscriptions[chatId]?.get(repository)?.lastCheckedIssueId = id`. */
    function WithWatermark(chatId: Int64, repository: string, id: Int32): Table {
      match Get(chats, chatId)
      case None => this
      case Some(repos) =>
        match Get(repos, repository)
        case None => this
        case Some(s) => Table(Put(chats, chatId, Put(repos, repository, s.(lastCheckedIssueId := Some(id)))))
    }
  }

  lemma GetChatValid(t: Table, c: Int64)
    requires t.Valid() && c in Keys(t.chats)
    ensures ChatValid(c, Get(t.chats, c).value)
  {
  }

  /** A stored subscription carries the key it is stored under. */
  lemma StoredUnderOwnKey(t: Table, c: Int64, r: string)
    requires t.Valid() && t.GetSubscription(c, r).Some?
    ensures t.GetSubscription(c, r).value.chatId == c
    ensures t.GetSubscription(c, r).value.repository == r
    ensures t.HasSubscription(c, r)
  {
    GetChatValid(t, c);
  }

  lemma HasIffGet(t: Table, c: Int64, r: string)
    ensures t.HasSubscription(c, r) <==> t.GetSubscription(c, r).Some?
  {
  }

  /** Putting a chat entry that is itself valid keeps the table valid and changes no other chat. */
  lemma PutChat(t: Table, c: Int64, repos: LinkedMap<string, Subscription>)
    requires t.Valid() && ChatValid(c, repos)
    ensures Table(Put(t.chats, c, repos)).Valid()
    ensures Get(Put(t.chats, c, repos), c) == Some(repos)
    ensures forall c': Int64 :: c' != c ==> Get(Put(t.chats, c, repos), c') == Get(t.chats, c')
  {
    PutSpec(t.chats, c, repos);
    var m := Put(t.chats, c, repos);
    forall i | 0 <= i < |m|
      ensures ChatValid(m[i].0, m[i].1)
    {
      IndexOfValid(m, i);
      if m[i].0 != c {
        IndexOfValid(t.chats, IndexOf(t.chats, m[i].0).value);
      }
    }
  }

  /** Storing a subscription under its own repository keeps a chat entry valid. */
  lemma PutInChat(c: Int64, repos: LinkedMap<string, Subscription>, s: Subscription)
    requires ChatValid(c, repos) && s.chatId == c
    ensures ChatValid(c, Put(repos, s.repository, s))
  {
    PutSpec(repos, s.repository, s);
    var repos' := Put(repos, s.repository, s);
    forall j | 0 <= j < |repos'|
      ensures repos'[j].1.chatId == c && repos'[j].1.repository == repos'[j].0
    {
      if repos'[j].0 != s.repository {
        IndexOfValid(repos', j);
        IndexOfValid(repos, IndexOf(repos, repos'[j].0).value);
      }
    }
  }

  /**
    `addSubscription` is an upsert: afterwards the pair holds exactly the given labels and no
    watermark, the chat has one more subscription only if the pair was new, and every other
    pair and every other chat is unchanged.
  */
  lemma AddedIsUpsert(t: Table, c: Int64, r: string, labels: seq<string>)
    requires t.Valid()
    ensures t.Added(c, r, labels).Valid()
    ensures t.Added(c, r, labels).GetSubscription(c, r) == Some(Subscription(c, r, labels, None))
    ensures forall c': Int64, r': string :: (c', r') != (c, r) ==>
      t.Added(c, r, labels).GetSubscription(c', r') == t.GetSubscription(c', r')
    ensures |t.Added(c, r, labels).GetUserSubscriptions(c)| ==
      |t.GetUserSubscriptions(c)| + (if t.HasSubscription(c, r) then 0 else 1)
    ensures forall c': Int64 :: c' != c ==> t.Added(c, r, labels).GetUserSubscriptions(c') == t.GetUserSubscriptions(c')
  {
    var repos := Get(t.chats, c).GetOr([]);
    if c in Keys(t.chats) {
      GetChatValid(t, c);
    }
    var s := Subscription(c, r, labels, None);
    var repos' := Put(repos, r, s);
    PutSpec(repos, r, s);
    PutInChat(c, repos, s);
    PutChat(t, c, repos');
    var t' := t.Added(c, r, labels);
    assert t' == Table(Put(t.chats, c, repos'));
    assert Get(t'.chats, c) == Some(repos');
    assert t'.GetUserSubscriptions(c) == Values(repos');
    assert |t'.GetUserSubscriptions(c)| == |Keys(repos')|;
    assert |t.GetUserSubscriptions(c)| == |Keys(repos)|;
  }

  /**
    `removeSubscription`: afterwards the pair is gone and every other pair is unchanged;
    if the pair was absent the store is unchanged.
  */
  lemma RemovedSpec(t: Table, c: Int64, r: string)
    requires t.Valid()
    ensures t.Removed(c, r).Valid()
    ensures !t.Removed(c, r).HasSubscription(c, r)
    ensures forall c': Int64, r': string :: (c', r') != (c, r) ==>
      t.Removed(c, r).GetSubscription(c', r') == t.GetSubscription(c', r')
    ensures !t.HasSubscription(c, r) ==> t.Removed(c, r) == t
    ensures |t.Removed(c, r).GetUserSubscriptions(c)| ==
      |t.GetUserSubscriptions(c)| - (if t.HasSubscription(c, r) then 1 else 0)
  {
    if c in Keys(t.chats) {
      var repos := Get(t.chats, c).value;
      GetChatValid(t, c);
      RemoveSpec(repos, r);
      var repos' := Remove(repos, r);
      forall j | 0 <= j < |repos'|
        ensures repos'[j].1.chatId == c && repos'[j].1.repository == repos'[j].0
      {
        var k := repos'[j].0;
        IndexOfValid(repos', j);
        assert k != r;
        assert Get(repos, k) == Some(repos'[j].1);
        IndexOfValid(repos, IndexOf(repos, k).value);
      }
      PutChat(t, c, repos');
      if r !in Keys(repos) {
        PutSame(t.chats, c);
      }
    }
  }

  /**
    `updateLastChecked`: the named pair gets the new watermark and keeps its labels; every
    other pair is unchanged; an absent pair leaves the store unchanged.
  */
  lemma WithWatermarkSpec(t: Table, c: Int64, r: string, id: Int32)
    requires t.Valid()
    ensures t.WithWatermark(c, r, id).Valid()
    ensures t.WithWatermark(c, r, id).GetSubscription(c, r) ==
      match t.GetSubscription(c, r)
      case None => None
      case Some(s) => Some(s.(lastCheckedIssueId := Some(id)))
    ensures forall c': Int64, r': string :: (c', r') != (c, r) ==>
      t.WithWatermark(c, r, id).GetSubscription(c', r') == t.GetSubscription(c', r')
    ensures !t.HasSubscription(c, r) ==> t.WithWatermark(c, r, id) == t
  {
    if c in Keys(t.chats) {
      var repos := Get(t.chats, c).value;
      GetChatValid(t, c);
      if r in Keys(repos) {
        var s := Get(repos, r).value;
        var s' := s.(lastCheckedIssueId := Some(id));
        PutSpec(repos, r, s');
        IndexOfValid(repos, IndexOf(repos, r).value);
        PutInChat(c, repos, s');
        PutChat(t, c, Put(repos, r, s'));
      }
    }
  }

  lemma {:induction false} FlatValuesSpec(chats: LinkedMap<Int64, LinkedMap<string, Subscription>>)
    requires Table(chats).Valid()
    ensures forall s :: s in FlatValues(chats) <==> Table(chats).GetSubscription(s.chatId, s.repository) == Some(s)
    ensures forall i, j :: 0 <= i < j < |FlatValues(chats)| ==>
      (FlatValues(chats)[i].chatId, FlatValues(chats)[i].repository) !=
      (FlatValues(chats)[j].chatId, FlatValues(chats)[j].repository)
  {
    if chats != [] {
      var init, last := chats[..|chats| - 1], chats[|chats| - 1];
      assert chats == init + [last];
      assert Table(init).Valid();
      FlatValuesSpec(init);
      var front, back := FlatValues(init), Values(last.1);
      assert FlatValues(chats) == front + back;
      assert ChatValid(last.0, last.1);
      assert last.0 !in Keys(init);
      forall s
        ensures s in FlatValues(chats) <==> Table(chats).GetSubscription(s.chatId, s.repository) == Some(s)
      {
        GetSnoc(init, last, s.chatId);
        if s.chatId == last.0 {
          assert Table(init).GetSubscription(s.chatId, s.repository) == None;
          if s in back {
            var j :| 0 <= j < |last.1| && last.1[j].1 == s;
            IndexOfValid(last.1, j);
          }
          if Get(last.1, s.repository) == Some(s) {
            assert s in back;
          }
        }
      }
      forall i, j | 0 <= i < j < |front + back|
        ensures ((front + back)[i].chatId, (front + back)[i].repository) !=
                ((front + back)[j].chatId, (front + back)[j].repository)
      {
        if j < |front| {
        } else if i >= |front| {
          assert back[i - |front|] == last.1[i - |front|].1;
        } else {
          var s := front[i];
          assert Table(init).GetSubscription(s.chatId, s.repository) == Some(s);
          assert s.chatId in Keys(init);
          assert back[j - |front|].chatId == last.0;
        }
      }
    }
  }

  /**
    `getAllSubscriptions` lists every stored subscription, and nothing else, exactly once
    (no two entries share a (chat, repository) key).
  */
  lemma AllSubscriptionsSpec(t: Table)
    requires t.Valid()
    ensures forall s :: s in t.GetAllSubscriptions() <==> t.GetSubscription(s.chatId, s.repository) == Some(s)
    ensures forall i, j :: 0 <= i < j < |t.GetAllSubscriptions()| ==>
      (t.GetAllSubscriptions()[i].chatId, t.GetAllSubscriptions()[i].repository) !=
      (t.GetAllSubscriptions()[j].chatId, t.GetAllSubscriptions()[j].repository)
  {
    FlatValuesSpec(t.chats);
  }

  /** `getUserSubscriptions(c)` lists exactly the stored subscriptions of chat `c`, each once. */
  lemma UserSubscriptionsSpec(t: Table, c: Int64)
    requires t.Valid()
    ensures forall s :: s in t.GetUserSubscriptions(c) <==> s in t.GetAllSubscriptions() && s.chatId == c
    ensures forall i, j :: 0 <= i < j < |t.GetUserSubscriptions(c)| ==>
      t.GetUserSubscriptions(c)[i].repository != t.GetUserSubscriptions(c)[j].repository
  {
    AllSubscriptionsSpec(t);
    if c in Keys(t.chats) {
      var repos := Get(t.chats, c).value;
      GetChatValid(t, c);
      forall s
        ensures s in Values(repos) <==> t.GetSubscription(s.chatId, s.repository) == Some(s) && s.chatId == c
      {
        if s in Values(repos) {
          var j :| 0 <= j < |repos| && repos[j].1 == s;
          IndexOfValid(repos, j);
        }
        if t.GetSubscription(s.chatId, s.repository) == Some(s) && s.chatId == c {
          var j := IndexOf(repos, s.repository).value;
          assert repos[j].1 == s;
        }
      }
    }
  }

  /** The store itself: a mutable object over the nested map. */
  class SubscriptionManager {
    var subscriptions: Table

    ghost predicate Valid()
      reads this
    {
      subscriptions.Valid()
    }

    constructor ()
      ensures Valid()
      ensures subscriptions == Table([])
    {
      subscriptions := Table([]);
    }

    method AddSubscription(chatId: Int64, repository: string, labels: seq<string>)
      requires Valid()
      modifies this
      ensures Valid()
      ensures subscriptions == old(subscriptions).Added(chatId, repository, labels)
      ensures subscriptions.GetSubscription(chatId, repository) == Some(Subscription(chatId, repository, labels, None))
      ensures forall c: Int64, r: string :: (c, r) != (chatId, repository) ==>
        subscriptions.GetSubscription(c, r) == old(subscriptions).GetSubscription(c, r)
    {
      AddedIsUpsert(subscriptions, chatId, repository, labels);
      subscriptions := subscriptions.Added(chatId, repository, labels);
    }

    method RemoveSubscription(chatId: Int64, repository: string) returns (removed: bool)
      requires Valid()
      modifies this
      ensures Valid()
      ensures removed == old(subscriptions).HasSubscription(chatId, repository)
      ensures subscriptions == old(subscriptions).Removed(chatId, repository)
      ensures !subscriptions.HasSubscription(chatId, repository)
      ensures forall c: Int64, r: string :: (c, r) != (chatId, repository) ==>
        subscriptions.GetSubscription(c, r) == old(subscriptions).GetSubscription(c, r)
      ensures !removed ==> subscriptions == old(subscriptions)
    {
      RemovedSpec(subscriptions, chatId, repository);
      match Get(subscriptions.chats, chatId)
      case None =>
        removed := false;
      case Some(repos) =>
        removed := repository in Keys(repos);
        subscriptions := subscriptions.Removed(chatId, repository);
    }

    method UpdateLastChecked(chatId: Int64, repository: string, lastIssueId: Int32)
      requires Valid()
      modifies this
      ensures Valid()
      ensures subscriptions == old(subscriptions).WithWatermark(chatId, repository, lastIssueId)
      ensures subscriptions.GetSubscription(chatId, repository) ==
        match old(subscriptions).GetSubscription(chatId, repository)
        case None => None
        case Some(s) => Some(s.(lastCheckedIssueId := Some(lastIssueId)))
      ensures forall c: Int64, r: string :: (c, r) != (chatId, repository) ==>
        subscriptions.GetSubscription(c, r) == old(subscriptions).GetSubscription(c, r)
    {
      WithWatermarkSpec(subscriptions, chatId, repository, lastIssueId);
      subscriptions := subscriptions.WithWatermark(chatId, repository, lastIssueId);
    }
  }
}
