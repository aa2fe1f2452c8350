/**
 * The dispatcher (worker_bunch/dispatcher.py): subscription tables for exact
 * and wildcard MQTT topics and for cron strings, one notification bucket per
 * listener, the minute watermark that gates cron triggers, and the flush rule.
 *
 * The rx debounce pipeline is modelled by a `ticked` set (a listener whose
 * pipeline has received an id and not fired yet) and an explicit
 * `DebounceElapsed` call; the calls of `listener.add_notifications` are
 * recorded in `deliveries`.
 */
module Dispatching {
  import opened Wrappers
  import opened Dicts
  import opened PyStrings
  import opened Notifications

  /** A listener, as the dispatcher tells them apart: by `id(listener)`. */
  type Listener = nat

  /** A subscription entry: the subscribed topic, the prefix a wildcard matches, the listeners. */
  datatype TopicMatch = TopicMatch(topic: string, searchPattern: Option<string>, listeners: set<Listener>)

  function Subscribe(m: TopicMatch, l: Listener): (r: TopicMatch)
    ensures r.topic == m.topic && r.searchPattern == m.searchPattern
    ensures r.listeners == m.listeners + {l}
  {
    m.(listeners := m.listeners + {l})
  }

  predicate Distinct<T(==)>(s: seq<T>) {
    forall i, j :: 0 <= i < j < |s| ==> s[i] != s[j]
  }

  // ---- wildcard topics ----

  /** `check_and_extract_wildcard_topic`: a topic ending in `#`, with every leading and trailing `#` removed. */
  function WildcardPattern(topic: string): Option<string> {
    if EndsWith(topic, "#") then Some(StripChar(topic, '#')) else None
  }

  predicate AllHashes(s: string) {
    forall i :: 0 <= i < |s| ==> s[i] == '#'
  }

  /** A wildcard topic: one ending in `#` that holds another character; `"#"` alone is an exact topic. */
  predicate IsWildcard(topic: string) {
    EndsWith(topic, "#") && !AllHashes(topic)
  }

  /** `_register_mqtt_topic` files a topic as a wildcard exactly when its pattern is a non-empty string. */
  lemma WildcardIff(topic: string)
    ensures IsWildcard(topic) <==> WildcardPattern(topic).Some? && WildcardPattern(topic).value != []
  {
    StripByEmpty(topic, x => x == '#');
  }

  /** For a wildcard that does not start with `#`, the pattern is the topic up to its trailing `#`s. */
  lemma WildcardPatternIsPrefix(topic: string)
    requires IsWildcard(topic) && topic[0] != '#'
    ensures var p := WildcardPattern(topic).value;
      p != [] && StartsWith(topic, p) && p[|p| - 1] != '#' && AllHashes(topic[|p|..])
  {
    var t := TrimRight(topic, x => x == '#');
    TrimRightShape(topic, x => x == '#');
    assert t != [];
    assert t[0] == topic[0];
    TrimLeftKeeps(t, x => x == '#');
  }

  // ---- the topic tables ----

  function MatchTopics(ms: seq<TopicMatch>): (ts: seq<string>)
    ensures |ts| == |ms|
    ensures forall i :: 0 <= i < |ms| ==> ts[i] == ms[i].topic
  {
    if ms == [] then [] else [ms[0].topic] + MatchTopics(ms[1..])
  }

  /** The topic list `get_mqtt_topics` builds: wildcard topics first, then the exact ones. */
  function TopicList(exact: Dict<string, TopicMatch>, wildcard: seq<TopicMatch>): seq<string> {
    MatchTopics(wildcard) + MatchTopics(Values(exact))
  }

  /**
   * What registration keeps true of the two tables: exact entries are keyed
   * by their own non-wildcard topic; wildcard entries have distinct wildcard
   * topics and carry their pattern.
   */
  predicate Tables(exact: Dict<string, TopicMatch>, wildcard: seq<TopicMatch>) {
    ExactTable(exact) && WildcardTable(wildcard)
  }

  /** `_exact_topic_matches`: keyed by its entries' topics, none of which is a wildcard. */
  predicate ExactTable(exact: Dict<string, TopicMatch>) {
    && DistinctKeys(exact)
    && (forall i :: 0 <= i < |exact| ==>
          exact[i].1.topic == exact[i].0 && exact[i].1.searchPattern.None? && !IsWildcard(exact[i].0))
  }

  /** `_wildcard_topic_matches`: distinct wildcard topics, each with its search prefix. */
  predicate WildcardTable(wildcard: seq<TopicMatch>) {
    WildcardTopics(wildcard) && PatternsKept(wildcard)
  }

  predicate WildcardTopics(wildcard: seq<TopicMatch>) {
    && (forall i, j :: 0 <= i < j < |wildcard| ==> wildcard[i].topic != wildcard[j].topic)
    && (forall i :: 0 <= i < |wildcard| ==> IsWildcard(wildcard[i].topic))
  }

  predicate PatternsKept(wildcard: seq<TopicMatch>) {
    forall i :: 0 <= i < |wildcard| ==> wildcard[i].searchPattern == WildcardPattern(wildcard[i].topic)
  }

  /** `get_mqtt_topics` never lists a topic twice. */
  lemma TopicListDistinct(exact: Dict<string, TopicMatch>, wildcard: seq<TopicMatch>)
    requires ExactTable(exact) && WildcardTopics(wildcard)
    ensures Distinct(TopicList(exact, wildcard))
  {
    var t := TopicList(exact, wildcard);
    var n := |wildcard|;
    forall i, j | 0 <= i < j < |t| ensures t[i] != t[j] {
      if j < n {
        assert t[i] == wildcard[i].topic && t[j] == wildcard[j].topic;
      } else if i >= n {
        assert t[i] == exact[i - n].0 && t[j] == exact[j - n].0;
      } else {
        assert t[i] == wildcard[i].topic && t[j] == exact[j - n].0;
      }
    }
  }

  /** The `next(...)` search of the wildcard table: the first index holding `topic`, or -1. */
  function IndexOfTopic(ms: seq<TopicMatch>, topic: string): (i: int)
    ensures -1 <= i < |ms|
    ensures i >= 0 ==> ms[i].topic == topic && forall j :: 0 <= j < i ==> ms[j].topic != topic
    ensures i == -1 ==> forall j :: 0 <= j < |ms| ==> ms[j].topic != topic
  {
    if ms == [] then -1
    else if ms[0].topic == topic then 0
    else
      var i := IndexOfTopic(ms[1..], topic);
      if i < 0 then -1 else i + 1
  }

  function NewMatch(topic: string, l: Listener): TopicMatch {
    if IsWildcard(topic) then TopicMatch(topic, WildcardPattern(topic), {l}) else TopicMatch(topic, None, {l})
  }

  /** `_register_mqtt_topic`: join the entry for `topic`, or add one for it at the end of its table. */
  function Register(exact: Dict<string, TopicMatch>, wildcard: seq<TopicMatch>, l: Listener, topic: string)
    : (Dict<string, TopicMatch>, seq<TopicMatch>)
  {
    if IsWildcard(topic) then
      var i := IndexOfTopic(wildcard, topic);
      (exact, if i < 0 then wildcard + [NewMatch(topic, l)] else wildcard[i := Subscribe(wildcard[i], l)])
    else
      var m := Get(exact, topic);
      (Put(exact, topic, if m.Some? then Subscribe(m.value, l) else NewMatch(topic, l)), wildcard)
  }

  /** The registration loop of `subscribe_mqtt_topics`. */
  function RegisterAll(exact: Dict<string, TopicMatch>, wildcard: seq<TopicMatch>, l: Listener, topics: seq<string>)
    : (Dict<string, TopicMatch>, seq<TopicMatch>)
    decreases |topics|
  {
    if topics == [] then (exact, wildcard)
    else
      var (e, w) := RegisterAll(exact, wildcard, l, topics[..|topics| - 1]);
      Register(e, w, l, topics[|topics| - 1])
  }

  lemma RegisterExactEntry(exact: Dict<string, TopicMatch>, wildcard: seq<TopicMatch>, l: Listener, topic: string)
    requires DistinctKeys(exact) && !IsWildcard(topic)
    ensures topic in Keys(exact) ==>
      exists i :: 0 <= i < |exact| && exact[i].0 == topic
        && Register(exact, wildcard, l, topic).0 == exact[i := (topic, Subscribe(exact[i].1, l))]
    ensures topic !in Keys(exact) ==> Register(exact, wildcard, l, topic).0 == exact + [(topic, NewMatch(topic, l))]
  {
    var m := Get(exact, topic);
    GetFound(exact, topic);
    if topic in Keys(exact) {
      var i :| 0 <= i < |exact| && exact[i] == (topic, m.value);
      PutExisting(exact, topic, Subscribe(m.value, l), i);
    } else {
      PutNew(exact, topic, NewMatch(topic, l));
    }
  }

  /** Registration keeps the tables well formed. */
  lemma RegisterKeepsTables(exact: Dict<string, TopicMatch>, wildcard: seq<TopicMatch>, l: Listener, topic: string)
    requires Tables(exact, wildcard)
    ensures var (e, w) := Register(exact, wildcard, l, topic); Tables(e, w)
  {
    if IsWildcard(topic) {
      RegisterWildcardKeepsTables(exact, wildcard, l, topic);
    } else {
      RegisterExactKeepsTables(exact, wildcard, l, topic);
    }
  }

  lemma RegisterWildcardKeepsTables(exact: Dict<string, TopicMatch>, wildcard: seq<TopicMatch>, l: Listener, topic: string)
    requires WildcardTable(wildcard) && IsWildcard(topic)
    ensures Register(exact, wildcard, l, topic).0 == exact
    ensures WildcardTable(Register(exact, wildcard, l, topic).1)
  {
    var i := IndexOfTopic(wildcard, topic);
    if i < 0 {
      WildcardTableAppend(wildcard, NewMatch(topic, l));
    } else {
      WildcardTableUpdate(wildcard, i, Subscribe(wildcard[i], l));
    }
  }

  lemma WildcardTableAppend(wildcard: seq<TopicMatch>, m: TopicMatch)
    requires WildcardTable(wildcard)
    requires IsWildcard(m.topic) && m.searchPattern == WildcardPattern(m.topic)
    requires forall j :: 0 <= j < |wildcard| ==> wildcard[j].topic != m.topic
    ensures WildcardTable(wildcard + [m])
  {
    var w := wildcard + [m];
    forall j | 0 <= j < |w|
      ensures w[j] == if j < |wildcard| then wildcard[j] else m
    {
    }
  }

  lemma WildcardTableUpdate(wildcard: seq<TopicMatch>, i: nat, m: TopicMatch)
    requires WildcardTable(wildcard) && i < |wildcard|
    requires m.topic == wildcard[i].topic && m.searchPattern == wildcard[i].searchPattern
    ensures WildcardTable(wildcard[i := m])
  {
    var w := wildcard[i := m];
    forall j | 0 <= j < |w|
      ensures w[j].topic == wildcard[j].topic && w[j].searchPattern == wildcard[j].searchPattern
    {
    }
  }

  lemma RegisterExactKeepsTables(exact: Dict<string, TopicMatch>, wildcard: seq<TopicMatch>, l: Listener, topic: string)
    requires ExactTable(exact) && !IsWildcard(topic)
    ensures Register(exact, wildcard, l, topic).1 == wildcard
    ensures ExactTable(Register(exact, wildcard, l, topic).0)
  {
    RegisterExactEntry(exact, wildcard, l, topic);
    if topic in Keys(exact) {
      var i :| 0 <= i < |exact| && exact[i].0 == topic
        && Register(exact, wildcard, l, topic).0 == exact[i := (topic, Subscribe(exact[i].1, l))];
      ExactTableUpdate(exact, i, Subscribe(exact[i].1, l));
    } else {
      ExactTableAppend(exact, topic, NewMatch(topic, l));
    }
  }

  lemma ExactTableUpdate(exact: Dict<string, TopicMatch>, i: nat, m: TopicMatch)
    requires ExactTable(exact) && i < |exact|
    requires m.topic == exact[i].0 && m.searchPattern.None?
    ensures ExactTable(exact[i := (exact[i].0, m)])
  {
    var e := exact[i := (exact[i].0, m)];
    forall a, b | 0 <= a < b < |e| ensures e[a].0 != e[b].0 {
      assert e[a].0 == exact[a].0 && e[b].0 == exact[b].0;
    }
    forall j | 0 <= j < |e| ensures e[j].1.topic == e[j].0 && e[j].1.searchPattern.None? && !IsWildcard(e[j].0) {
      assert e[j].0 == exact[j].0;
    }
  }

  lemma ExactTableAppend(exact: Dict<string, TopicMatch>, topic: string, m: TopicMatch)
    requires ExactTable(exact) && topic !in Keys(exact) && !IsWildcard(topic)
    requires m.topic == topic && m.searchPattern.None?
    ensures ExactTable(exact + [(topic, m)])
  {
    var e := exact + [(topic, m)];
    forall a, b | 0 <= a < b < |e| ensures e[a].0 != e[b].0 {
      if b < |exact| {
        assert e[a] == exact[a] && e[b] == exact[b];
      } else {
        assert e[a].0 == Keys(exact)[a];
      }
    }
    forall j | 0 <= j < |e| ensures e[j].1.topic == e[j].0 && e[j].1.searchPattern.None? && !IsWildcard(e[j].0) {
      if j < |exact| {
        assert e[j] == exact[j];
      }
    }
  }

  lemma RegisterAllKeepsTables(exact: Dict<string, TopicMatch>, wildcard: seq<TopicMatch>, l: Listener, topics: seq<string>)
    requires Tables(exact, wildcard)
    ensures var (e, w) := RegisterAll(exact, wildcard, l, topics); Tables(e, w)
    decreases |topics|
  {
    if topics != [] {
      RegisterAllKeepsTables(exact, wildcard, l, topics[..|topics| - 1]);
      var (e, w) := RegisterAll(exact, wildcard, l, topics[..|topics| - 1]);
      RegisterKeepsTables(e, w, l, topics[|topics| - 1]);
    }
  }

  /** A topic is listed exactly when the table its kind belongs to holds it. */
  lemma TopicListed(exact: Dict<string, TopicMatch>, wildcard: seq<TopicMatch>, topic: string)
    requires ExactTable(exact) && WildcardTopics(wildcard)
    ensures topic in TopicList(exact, wildcard) <==>
      if IsWildcard(topic) then IndexOfTopic(wildcard, topic) >= 0 else topic in Keys(exact)
  {
    InMatchTopics(wildcard, topic);
    InValuesTopics(exact);
    var i := IndexOfTopic(wildcard, topic);
    if i >= 0 {
      assert IsWildcard(wildcard[i].topic);
    }
    if topic in Keys(exact) {
      var j :| 0 <= j < |exact| && Keys(exact)[j] == topic;
      assert !IsWildcard(exact[j].0);
    }
  }

  lemma InMatchTopics(ms: seq<TopicMatch>, topic: string)
    ensures topic in MatchTopics(ms) <==> IndexOfTopic(ms, topic) >= 0
  {
    var i := IndexOfTopic(ms, topic);
    if i >= 0 {
      assert MatchTopics(ms)[i] == topic;
    }
  }

  lemma InValuesTopics(exact: Dict<string, TopicMatch>)
    requires forall i :: 0 <= i < |exact| ==> exact[i].1.topic == exact[i].0
    ensures MatchTopics(Values(exact)) == Keys(exact)
  {

  }

  /**
   * Registering a topic that is already listed leaves `get_mqtt_topics` as it
   * was; a new one joins the end of its section (wildcards before exact topics).
   */
  lemma RegisterTopicList(exact: Dict<string, TopicMatch>, wildcard: seq<TopicMatch>, l: Listener, topic: string)
    requires ExactTable(exact) && WildcardTopics(wildcard)
    ensures var (e, w) := Register(exact, wildcard, l, topic);
      TopicList(e, w) ==
        if topic in TopicList(exact, wildcard) then TopicList(exact, wildcard)
        else if IsWildcard(topic) then MatchTopics(wildcard) + [topic] + MatchTopics(Values(exact))
        else TopicList(exact, wildcard) + [topic]
  {
    TopicListed(exact, wildcard, topic);
    var (e, w) := Register(exact, wildcard, l, topic);
    var ws, es := MatchTopics(wildcard), MatchTopics(Values(exact));
    if IsWildcard(topic) {
      RegisterWildcardTopics(exact, wildcard, l, topic);
      assert TopicList(e, w) == MatchTopics(w) + es;
    } else {
      RegisterExactTopics(exact, wildcard, l, topic);
      assert TopicList(e, w) == ws + MatchTopics(Values(e));
      AppendAssoc(ws, es, [topic]);
    }
  }

  lemma RegisterWildcardTopics(exact: Dict<string, TopicMatch>, wildcard: seq<TopicMatch>, l: Listener, topic: string)
    requires IsWildcard(topic)
    ensures var (e, w) := Register(exact, wildcard, l, topic);
      e == exact
      && MatchTopics(w) == if IndexOfTopic(wildcard, topic) >= 0 then MatchTopics(wildcard) else MatchTopics(wildcard) + [topic]
  {
    var w := Register(exact, wildcard, l, topic).1;
    var i := IndexOfTopic(wildcard, topic);
    if i >= 0 {
      assert w == wildcard[i := Subscribe(wildcard[i], l)];
      assert |MatchTopics(w)| == |MatchTopics(wildcard)|;
      forall j | 0 <= j < |w| ensures MatchTopics(w)[j] == MatchTopics(wildcard)[j] {
        assert w[j].topic == wildcard[j].topic;
      }
    } else {
      assert w == wildcard + [NewMatch(topic, l)];
      assert |MatchTopics(w)| == |MatchTopics(wildcard) + [topic]|;
      forall j | 0 <= j < |w| ensures MatchTopics(w)[j] == (MatchTopics(wildcard) + [topic])[j] {
        if j < |wildcard| {
          assert w[j].topic == wildcard[j].topic;
        }
      }
    }
  }

  lemma RegisterExactTopics(exact: Dict<string, TopicMatch>, wildcard: seq<TopicMatch>, l: Listener, topic: string)
    requires DistinctKeys(exact) && !IsWildcard(topic)
    ensures var (e, w) := Register(exact, wildcard, l, topic);
      w == wildcard
      && MatchTopics(Values(e)) == if topic in Keys(exact) then MatchTopics(Values(exact)) else MatchTopics(Values(exact)) + [topic]
  {
    RegisterExactEntry(exact, wildcard, l, topic);
    if topic in Keys(exact) {
      var i :| 0 <= i < |exact| && exact[i].0 == topic
        && Register(exact, wildcard, l, topic).0 == exact[i := (topic, Subscribe(exact[i].1, l))];
      ValuesTopicsUpdate(exact, i, Subscribe(exact[i].1, l));
    } else {
      ValuesTopicsAppend(exact, topic, NewMatch(topic, l));
    }
  }

  lemma ValuesTopicsAppend(exact: Dict<string, TopicMatch>, t: string, m: TopicMatch)
    requires m.topic == t
    ensures MatchTopics(Values(exact + [(t, m)])) == MatchTopics(Values(exact)) + [t]
  {
    var e := exact + [(t, m)];
    var before := MatchTopics(Values(exact));
    assert |MatchTopics(Values(e))| == |before + [t]|;
    forall j | 0 <= j < |e| ensures MatchTopics(Values(e))[j] == (before + [t])[j] {
      if j < |exact| {
        assert e[j].1.topic == exact[j].1.topic;
      }
    }
  }

  lemma ValuesTopicsUpdate(exact: Dict<string, TopicMatch>, i: nat, m: TopicMatch)
    requires i < |exact| && m.topic == exact[i].1.topic
    ensures MatchTopics(Values(exact[i := (exact[i].0, m)])) == MatchTopics(Values(exact))
  {
    var e := exact[i := (exact[i].0, m)];
    var before := MatchTopics(Values(exact));
    assert |MatchTopics(Values(e))| == |before|;
    forall j | 0 <= j < |e| ensures MatchTopics(Values(e))[j] == before[j] {
      assert e[j].1.topic == exact[j].1.topic;
    }
  }

  // ---- routing ----

  /** A wildcard entry covers a topic that starts with its pattern. */
  predicate Covers(m: TopicMatch, topic: string) {
    m.searchPattern.Some? && StartsWith(topic, m.searchPattern.value)
  }

  function ExactListeners(exact: Dict<string, TopicMatch>, topic: string): set<Listener> {
    var m := Get(exact, topic);
    if m.Some? then m.value.listeners else {}
  }

  /** The `for wildcard_topic_match in self._wildcard_topic_matches` part of the routing. */
  function WildcardListeners(wildcard: seq<TopicMatch>, topic: string): set<Listener>
    decreases |wildcard|
  {
    if wildcard == [] then {}
    else
      var k := |wildcard| - 1;
      WildcardListeners(wildcard[..k], topic) + if Covers(wildcard[k], topic) then wildcard[k].listeners else {}
  }

  /** A listener is reached through the wildcards exactly when one of its wildcard subscriptions covers the topic. */
  lemma {:induction false} WildcardListenersIff(wildcard: seq<TopicMatch>, topic: string, l: Listener)
    ensures l in WildcardListeners(wildcard, topic) <==>
      exists i :: 0 <= i < |wildcard| && Covers(wildcard[i], topic) && l in wildcard[i].listeners
    decreases |wildcard|
  {
    if wildcard != [] {
      var k := |wildcard| - 1;
      var w := wildcard[..k];
      WildcardListenersIff(w, topic, l);
      if l in WildcardListeners(w, topic) {
        var i :| 0 <= i < k && Covers(w[i], topic) && l in w[i].listeners;
        assert w[i] == wildcard[i];
      }
      if exists i :: 0 <= i < |wildcard| && Covers(wildcard[i], topic) && l in wildcard[i].listeners {
        var i :| 0 <= i < |wildcard| && Covers(wildcard[i], topic) && l in wildcard[i].listeners;
        if i < k {
          assert w[i] == wildcard[i];
        }
      }
    }
  }

  /** The listeners a message on `topic` is stored for: the exact match's and every covering wildcard's. */
  function Route(exact: Dict<string, TopicMatch>, wildcard: seq<TopicMatch>, topic: string): set<Listener> {
    ExactListeners(exact, topic) + WildcardListeners(wildcard, topic)
  }

  /** After registering `topic`, the listener receives every message the subscription covers. */
  lemma RegisterRoutes(exact: Dict<string, TopicMatch>, wildcard: seq<TopicMatch>, l: Listener, topic: string, msgTopic: string)
    requires Tables(exact, wildcard)
    requires if IsWildcard(topic) then StartsWith(msgTopic, WildcardPattern(topic).value) else msgTopic == topic
    ensures var (e, w) := Register(exact, wildcard, l, topic); l in Route(e, w, msgTopic)
  {
    var (e, w) := Register(exact, wildcard, l, topic);
    if IsWildcard(topic) {
      var i := IndexOfTopic(wildcard, topic);
      var j := if i < 0 then |wildcard| else i;
      assert Covers(w[j], msgTopic) && l in w[j].listeners;
      WildcardListenersIff(w, msgTopic, l);
    } else {
      PutGet(exact, topic, if Get(exact, topic).Some? then Subscribe(Get(exact, topic).value, l) else NewMatch(topic, l), topic);
    }
  }

  /** Registering for one listener does not change where messages go for any other listener. */
  lemma RegisterKeepsOtherRoutes(exact: Dict<string, TopicMatch>, wildcard: seq<TopicMatch>, l: Listener, topic: string, msgTopic: string)
    ensures var (e, w) := Register(exact, wildcard, l, topic);
      Route(e, w, msgTopic) - {l} == Route(exact, wildcard, msgTopic) - {l}
  {
    if IsWildcard(topic) {
      var i := IndexOfTopic(wildcard, topic);
      if i < 0 {
        assert Register(exact, wildcard, l, topic) == (exact, wildcard + [NewMatch(topic, l)]);
        WildcardListenersAppend(wildcard, NewMatch(topic, l), msgTopic);
      } else {
        assert Register(exact, wildcard, l, topic) == (exact, wildcard[i := Subscribe(wildcard[i], l)]);
        WildcardListenersJoin(wildcard, i, l, msgTopic);
        var before := WildcardListeners(wildcard, msgTopic);
        var after := WildcardListeners(wildcard[i := Subscribe(wildcard[i], l)], msgTopic);
        var ex := ExactListeners(exact, msgTopic);
        assert (ex + after) - {l} == (ex - {l}) + (after - {l});
        assert (ex + before) - {l} == (ex - {l}) + (before - {l});
      }
    } else {
      var m := Get(exact, topic);
      PutGet(exact, topic, if m.Some? then Subscribe(m.value, l) else NewMatch(topic, l), msgTopic);
    }
  }

  lemma WildcardListenersAppend(wildcard: seq<TopicMatch>, m: TopicMatch, msgTopic: string)
    ensures WildcardListeners(wildcard + [m], msgTopic)
         == WildcardListeners(wildcard, msgTopic) + if Covers(m, msgTopic) then m.listeners else {}
  {
    assert (wildcard + [m])[..|wildcard|] == wildcard;
  }

  lemma WildcardListenersJoin(wildcard: seq<TopicMatch>, i: nat, l: Listener, msgTopic: string)
    requires i < |wildcard|
    ensures WildcardListeners(wildcard[i := Subscribe(wildcard[i], l)], msgTopic) - {l}
         == WildcardListeners(wildcard, msgTopic) - {l}
  {
    var w := wildcard[i := Subscribe(wildcard[i], l)];
    forall x | x != l ensures x in WildcardListeners(w, msgTopic) <==> x in WildcardListeners(wildcard, msgTopic) {
      WildcardListenersIff(wildcard, msgTopic, x);
      WildcardListenersIff(w, msgTopic, x);
      if x in WildcardListeners(wildcard, msgTopic) {
        var j :| 0 <= j < |wildcard| && Covers(wildcard[j], msgTopic) && x in wildcard[j].listeners;
        assert Covers(w[j], msgTopic) && x in w[j].listeners;
      }
      if x in WildcardListeners(w, msgTopic) {
        var j :| 0 <= j < |w| && Covers(w[j], msgTopic) && x in w[j].listeners;
        assert Covers(wildcard[j], msgTopic) && x in wildcard[j].listeners;
      }
    }
  }

  // ---- buckets ----

  /** `self._notifications`: the bucket of each listener that has had one created. */
  type Buckets = map<Listener, NotificationSet>

  function BucketOf(bs: Buckets, l: Listener): NotificationSet {
    if l in bs then bs[l] else map[]
  }

  /** `_store_notification` for every listener in `ls`. */
  function StoreTo(bs: Buckets, ls: set<Listener>, n: Notification): (r: Buckets)
    ensures r.Keys == bs.Keys + ls
    ensures forall l :: l in ls ==> r[l] == Add(BucketOf(bs, l), n)
    ensures forall l :: l in bs && l !in ls ==> r[l] == bs[l]
  {
    map l | l in bs.Keys + ls :: if l in ls then Add(BucketOf(bs, l), n) else bs[l]
  }

  /** `r` is `bs` after storing `n` for the listeners in `ls`, pointwise. */
  ghost predicate Stored(bs: Buckets, ls: set<Listener>, n: Notification, r: Buckets) {
    && r.Keys == bs.Keys + ls
    && (forall l :: l in ls ==> r[l] == Add(BucketOf(bs, l), n))
    && (forall l :: l in bs && l !in ls ==> r[l] == bs[l])
  }

  /** Storing for one more listener is one more `_store_notification`. */
  lemma StoredStep(bs: Buckets, ls: set<Listener>, l: Listener, n: Notification, r: Buckets)
    requires Stored(bs, ls, n, r) && l !in ls
    ensures Stored(bs, ls + {l}, n, r[l := Add(BucketOf(r, l), n)])
  {
    assert BucketOf(r, l) == BucketOf(bs, l);
  }

  lemma StoredIsStoreTo(bs: Buckets, ls: set<Listener>, n: Notification, r: Buckets)
    requires Stored(bs, ls, n, r)
    ensures r == StoreTo(bs, ls, n)
  {
  }

  /** The buckets after `push_mqtt_messages` has routed and stored `ns` in turn. */
  function PushAll(bs: Buckets, exact: Dict<string, TopicMatch>, wildcard: seq<TopicMatch>, ns: seq<Notification>): Buckets
    decreases |ns|
  {
    if ns == [] then bs
    else
      var k := |ns| - 1;
      StoreTo(PushAll(bs, exact, wildcard, ns[..k]), Route(exact, wildcard, ns[k].topic), ns[k])
  }

  /** The listeners whose pipelines `push_mqtt_messages` ticks for `ns`. */
  function Reached(exact: Dict<string, TopicMatch>, wildcard: seq<TopicMatch>, ns: seq<Notification>): set<Listener>
    decreases |ns|
  {
    if ns == [] then {}
    else
      var k := |ns| - 1;
      Reached(exact, wildcard, ns[..k]) + Route(exact, wildcard, ns[k].topic)
  }

  /** A pipeline is ticked exactly when some pushed notification is routed to its listener. */
  lemma {:induction false} ReachedIff(exact: Dict<string, TopicMatch>, wildcard: seq<TopicMatch>, ns: seq<Notification>, l: Listener)
    ensures l in Reached(exact, wildcard, ns) <==> exists i :: 0 <= i < |ns| && l in Route(exact, wildcard, ns[i].topic)
    decreases |ns|
  {
    if ns != [] {
      var k := |ns| - 1;
      var p := ns[..k];
      var last := Route(exact, wildcard, ns[k].topic);
      assert Reached(exact, wildcard, ns) == Reached(exact, wildcard, p) + last;
      ReachedIff(exact, wildcard, p, l);
      if l in Reached(exact, wildcard, p) {
        var i :| 0 <= i < k && l in Route(exact, wildcard, p[i].topic);
        assert p[i] == ns[i];
      }
      if exists i :: 0 <= i < |ns| && l in Route(exact, wildcard, ns[i].topic) {
        var i :| 0 <= i < |ns| && l in Route(exact, wildcard, ns[i].topic);
        if i < k {
          assert p[i] == ns[i];
        }
      }
    }
  }

  /**
   * After a run of pushes, a listener's bucket holds, under each identity,
   * the last notification with that identity routed to it.
   */
  lemma {:induction false} PushKeepsLatest(bs: Buckets, exact: Dict<string, TopicMatch>, wildcard: seq<TopicMatch>,
                                           ns: seq<Notification>, l: Listener, j: nat)
    requires j < |ns| && l in Route(exact, wildcard, ns[j].topic)
    requires forall i :: j < i < |ns| && l in Route(exact, wildcard, ns[i].topic) ==> KeyOf(ns[i]) != KeyOf(ns[j])
    ensures var r := PushAll(bs, exact, wildcard, ns); l in r && KeyOf(ns[j]) in r[l] && r[l][KeyOf(ns[j])] == ns[j]
    decreases |ns|
  {
    var k := |ns| - 1;
    var prev := PushAll(bs, exact, wildcard, ns[..k]);
    var route := Route(exact, wildcard, ns[k].topic);
    assert PushAll(bs, exact, wildcard, ns) == StoreTo(prev, route, ns[k]);
    if j < k {
      assert ns[..k][j] == ns[j];
      forall i | j < i < k && l in Route(exact, wildcard, ns[..k][i].topic) ensures KeyOf(ns[..k][i]) != KeyOf(ns[..k][j]) {
        assert ns[..k][i] == ns[i];
      }
      PushKeepsLatest(bs, exact, wildcard, ns[..k], l, j);
      if l in route {
        assert KeyOf(ns[k]) != KeyOf(ns[j]);
        assert StoreTo(prev, route, ns[k])[l] == Add(prev[l], ns[k]);
      }
    } else {
      assert StoreTo(prev, route, ns[k])[l] == Add(BucketOf(prev, l), ns[k]);
    }
  }

  /** Pushing one more notification stores it for, and ticks, exactly the listeners it is routed to. */
  lemma PushStep(bs: Buckets, exact: Dict<string, TopicMatch>, wildcard: seq<TopicMatch>, ns: seq<Notification>, n: Notification)
    ensures PushAll(bs, exact, wildcard, ns + [n]) == StoreTo(PushAll(bs, exact, wildcard, ns), Route(exact, wildcard, n.topic), n)
    ensures Reached(exact, wildcard, ns + [n]) == Reached(exact, wildcard, ns) + Route(exact, wildcard, n.topic)
  {
    assert (ns + [n])[..|ns|] == ns;
  }

  /** A listener no notification is routed to keeps its bucket as it was. */
  lemma {:induction false} PushSkipsUnreached(bs: Buckets, exact: Dict<string, TopicMatch>, wildcard: seq<TopicMatch>,
                                              ns: seq<Notification>, l: Listener)
    requires l !in Reached(exact, wildcard, ns)
    ensures BucketOf(PushAll(bs, exact, wildcard, ns), l) == BucketOf(bs, l)
    decreases |ns|
  {
    if ns != [] {
      var k := |ns| - 1;
      assert Reached(exact, wildcard, ns) == Reached(exact, wildcard, ns[..k]) + Route(exact, wildcard, ns[k].topic);
      PushSkipsUnreached(bs, exact, wildcard, ns[..k], l);
    }
  }

  /** A listener's bucket only ever holds notifications that were routed to it, or that it held before. */
  lemma {:induction false} PushHoldsOnlyRouted(bs: Buckets, exact: Dict<string, TopicMatch>, wildcard: seq<TopicMatch>,
                                               ns: seq<Notification>, l: Listener, key: Key)
    requires key in BucketOf(PushAll(bs, exact, wildcard, ns), l)
    ensures key in BucketOf(bs, l)
         || exists i :: 0 <= i < |ns| && l in Route(exact, wildcard, ns[i].topic) && BucketOf(PushAll(bs, exact, wildcard, ns), l)[key] == ns[i]
    decreases |ns|
  {
    if ns != [] {
      var k := |ns| - 1;
      var prev := PushAll(bs, exact, wildcard, ns[..k]);
      var r := PushAll(bs, exact, wildcard, ns);
      if l in Route(exact, wildcard, ns[k].topic) && key == KeyOf(ns[k]) {
        assert BucketOf(r, l)[key] == ns[k];
      } else {
        assert key in BucketOf(prev, l) && BucketOf(r, l)[key] == BucketOf(prev, l)[key];
        PushHoldsOnlyRouted(bs, exact, wildcard, ns[..k], l, key);
        if !(key in BucketOf(bs, l)) {
          var i :| 0 <= i < k && l in Route(exact, wildcard, ns[..k][i].topic) && BucketOf(prev, l)[key] == ns[..k][i];
          assert ns[..k][i] == ns[i];
        }
      }
    }
  }

  /**
   * `_send_notifications`: the bucket's contents are handed over only when it
   * exists and is non-empty, and it is left empty.
   */
  function Flush(bs: Buckets, l: Listener): (r: (Buckets, Option<NotificationSet>))
    ensures r.1.Some? <==> |BucketOf(bs, l)| > 0
    ensures r.1.Some? ==> r.1.value == bs[l]
    ensures |BucketOf(r.0, l)| == 0
    ensures forall x :: x != l ==> BucketOf(r.0, x) == BucketOf(bs, x)
  {
    if l in bs && |bs[l]| > 0 then (bs[l := map[]], Some(bs[l])) else (bs, None)
  }

  /** A second flush with nothing stored in between hands nothing over. */
  lemma FlushTwice(bs: Buckets, l: Listener)
    ensures Flush(Flush(bs, l).0, l).1 == None
  {
  }

  /** A flush neither loses nor invents notifications: what was in the bucket is what got handed over. */
  lemma FlushLosesNothing(bs: Buckets, l: Listener)
    ensures var (after, sent) := Flush(bs, l);
      BucketOf(bs, l) == (if sent.Some? then sent.value else map[]) + BucketOf(after, l)
  {
  }

  // ---- cron subscriptions and the minute watermark ----

  /** `subscribe_cron`: the first subscription for a cron string fixes its topic. */
  function CronSubscribe(crons: Dict<string, TopicMatch>, cron: string, topic: string, l: Listener): Dict<string, TopicMatch> {
    var m := Get(crons, cron);
    Put(crons, cron, if m.Some? then Subscribe(m.value, l) else TopicMatch(topic, None, {l}))
  }

  lemma CronSubscribeKeepsFirstTopic(crons: Dict<string, TopicMatch>, cron: string, topic: string, l: Listener, other: string)
    ensures var r := Get(CronSubscribe(crons, cron, topic, l), cron); var before := Get(crons, cron);
      r.Some? && l in r.value.listeners
      && (before.Some? ==> r.value.topic == before.value.topic && r.value.searchPattern == before.value.searchPattern
                           && r.value.listeners == before.value.listeners + {l})
      && (before.None? ==> r.value == TopicMatch(topic, None, {l}))
    ensures other != cron ==> Get(CronSubscribe(crons, cron, topic, l), other) == Get(crons, other)
  {
    var m := Get(crons, cron);
    var v := if m.Some? then Subscribe(m.value, l) else TopicMatch(topic, None, {l});
    PutGet(crons, cron, v, cron);
    PutGet(crons, cron, v, other);
  }

  /** A second listener for the same cron string joins the first subscription and gets its topic. */
  lemma CronSecondSubscriberGetsFirstTopic(cron: string, t1: string, t2: string, l1: Listener, l2: Listener)
    ensures var r := Get(CronSubscribe(CronSubscribe([], cron, t1, l1), cron, t2, l2), cron);
      r == Some(TopicMatch(t1, None, {l1, l2}))
  {
    var c1 := CronSubscribe([], cron, t1, l1);
    CronSubscribeKeepsFirstTopic([], cron, t1, l1, cron);
    assert Get(c1, cron) == Some(TopicMatch(t1, None, {l1}));
    CronSubscribeKeepsFirstTopic(c1, cron, t2, l2, cron);
    var r := Get(CronSubscribe(c1, cron, t2, l2), cron).value;
    assert r.topic == t1 && r.searchPattern == None && r.listeners == {l1, l2};
  }

  /** Microseconds in a minute; times are wall-clock microseconds. */
  const MinuteMicros := 60_000_000

  /** `now.replace(second=0, microsecond=0)`. */
  function MinuteOf(t: int): (m: int)
    ensures m % MinuteMicros == 0 && m <= t < m + MinuteMicros
  {
    t - t % MinuteMicros
  }

  /** Once the watermark is a whole minute, crons are due again exactly from the next minute on. */
  lemma WatermarkGate(last: int, now: int)
    requires last % MinuteMicros == 0
    ensures last < MinuteOf(now) <==> now >= last + MinuteMicros
  {
    var m := MinuteOf(now);
    if last < m {
      assert (m - last) % MinuteMicros == 0;
      assert m - last >= MinuteMicros;
    }
  }

  /**
   * The staging loop of `trigger_timers`: for every cron that has come due
   * between `since` and `now`, a CRON notification with its topic is
   * stored for its listeners, which are collected for the flush.
   */
  function CronStage(bs: Buckets, crons: Dict<string, TopicMatch>, hasBeen: (string, int, int) -> bool, since: int, now: int)
    : (Buckets, set<Listener>)
    decreases |crons|
  {
    if crons == [] then (bs, {})
    else
      var k := |crons| - 1;
      var (staged, sendTo) := CronStage(bs, crons[..k], hasBeen, since, now);
      var (cron, m) := crons[k];
      if hasBeen(cron, since, now) then
        (StoreTo(staged, m.listeners, Notification(Cron, m.topic, None)), sendTo + m.listeners)
      else (staged, sendTo)
  }

  /** Every listener collected for the flush has a non-empty staged bucket, and no other bucket changes. */
  ghost predicate StagedFor(bs: Buckets, staged: Buckets, sendTo: set<Listener>) {
    && (forall l :: l in sendTo ==> l in staged && |staged[l]| > 0)
    && (forall l :: l !in sendTo ==> BucketOf(staged, l) == BucketOf(bs, l))
  }

  lemma {:induction false} CronStageBuckets(bs: Buckets, crons: Dict<string, TopicMatch>, hasBeen: (string, int, int) -> bool, since: int, now: int)
    ensures StagedFor(bs, CronStage(bs, crons, hasBeen, since, now).0, CronStage(bs, crons, hasBeen, since, now).1)
    decreases |crons|
  {
    if crons != [] {
      var k := |crons| - 1;
      CronStageBuckets(bs, crons[..k], hasBeen, since, now);
      var prev := CronStage(bs, crons[..k], hasBeen, since, now);
      if hasBeen(crons[k].0, since, now) {
        StageStep(bs, prev.0, prev.1, crons[k].1.listeners, Notification(Cron, crons[k].1.topic, None));
      }
    }
  }

  lemma StageStep(bs: Buckets, staged: Buckets, sendTo: set<Listener>, ls: set<Listener>, n: Notification)
    requires StagedFor(bs, staged, sendTo)
    ensures StagedFor(bs, StoreTo(staged, ls, n), sendTo + ls)
  {
    var r := StoreTo(staged, ls, n);
    forall l | l in sendTo + ls ensures l in r && |r[l]| > 0 {
      if l in ls {
        assert KeyOf(n) in r[l];
      } else {
        assert r[l] == staged[l];
      }
    }
  }

  /** A listener is flushed exactly when it subscribed to a cron that has come due, and then holds that cron's notification. */
  lemma {:induction false} CronStageDue(bs: Buckets, crons: Dict<string, TopicMatch>, hasBeen: (string, int, int) -> bool,
                                        since: int, now: int, l: Listener)
    ensures var (staged, sendTo) := CronStage(bs, crons, hasBeen, since, now);
      (l in sendTo <==> exists i :: 0 <= i < |crons| && hasBeen(crons[i].0, since, now) && l in crons[i].1.listeners)
      && (forall i :: 0 <= i < |crons| && hasBeen(crons[i].0, since, now) && l in crons[i].1.listeners ==>
            l in staged && Key(Cron, crons[i].1.topic) in staged[l])
    decreases |crons|
  {
    if crons != [] {
      var k := |crons| - 1;
      CronStageDue(bs, crons[..k], hasBeen, since, now, l);
      assert forall i :: 0 <= i < k ==> crons[..k][i] == crons[i];
    }
  }

  /** The buckets after the flush loop of `trigger_timers`: every flushed listener's bucket is empty. */
  function Cleared(bs: Buckets, ls: set<Listener>): (r: Buckets)
    ensures r.Keys == bs.Keys
    ensures forall l :: l in bs ==> r[l] == if l in ls then map[] else bs[l]
  {
    map l | l in bs :: if l in ls then map[] else bs[l]
  }

  function ListenersOf(ds: seq<(Listener, NotificationSet)>): (ls: set<Listener>)
    ensures forall l :: l in ls <==> exists j :: 0 <= j < |ds| && ds[j].0 == l
    decreases |ds|
  {
    if ds == [] then {}
    else
      var k := |ds| - 1;
      assert forall j :: 0 <= j < k ==> ds[..k][j] == ds[j];
      ListenersOf(ds[..k]) + {ds[k].0}
  }

  /** `added` hands each listener of `ls` its staged bucket, once each and nobody else. */
  predicate DeliveredOnce(added: seq<(Listener, NotificationSet)>, staged: Buckets, ls: set<Listener>) {
    && ListenersOf(added) == ls
    && (forall j :: 0 <= j < |added| ==> added[j].0 in staged && added[j].1 == staged[added[j].0])
    && (forall j, k :: 0 <= j < k < |added| ==> added[j].0 != added[k].0)
  }

  lemma DeliveredStep(added: seq<(Listener, NotificationSet)>, staged: Buckets, done: set<Listener>, l: Listener)
    requires DeliveredOnce(added, staged, done) && l !in done && l in staged
    ensures DeliveredOnce(added + [(l, staged[l])], staged, done + {l})
  {
    var a := added + [(l, staged[l])];
    assert a[..|added|] == added;
  }

  /** The flush loop of `trigger_timers` has handed over the buckets of `sendTo - rest`, each once, and cleared them. */
  ghost predicate SendProgress(staged: Buckets, sendTo: set<Listener>, rest: set<Listener>, bs: Buckets, sent: seq<(Listener, NotificationSet)>) {
    bs == Cleared(staged, sendTo - rest) && DeliveredOnce(sent, staged, sendTo - rest)
  }

  lemma SendStart(staged: Buckets, sendTo: set<Listener>)
    ensures SendProgress(staged, sendTo, sendTo, staged, [])
  {
    assert sendTo - sendTo == {};
    assert Cleared(staged, {}) == staged;
  }

  lemma SendStep(staged: Buckets, sendTo: set<Listener>, rest: set<Listener>, bs: Buckets, sent: seq<(Listener, NotificationSet)>, l: Listener)
    requires forall x :: x in sendTo ==> x in staged && |staged[x]| > 0
    requires rest <= sendTo && l in rest
    requires SendProgress(staged, sendTo, rest, bs, sent)
    ensures l in staged && Flush(bs, l) == (Cleared(staged, sendTo - (rest - {l})), Some(staged[l]))
    ensures SendProgress(staged, sendTo, rest - {l}, Flush(bs, l).0, sent + [(l, staged[l])])
  {
    var done := sendTo - rest;
    assert sendTo - (rest - {l}) == done + {l};
    ClearedStep(staged, done, l);
    DeliveredStep(sent, staged, done, l);
  }

  lemma SendDone(staged: Buckets, sendTo: set<Listener>, rest: set<Listener>, bs: Buckets, sent: seq<(Listener, NotificationSet)>)
    requires rest == {} && SendProgress(staged, sendTo, rest, bs, sent)
    ensures bs == Cleared(staged, sendTo) && DeliveredOnce(sent, staged, sendTo)
  {
    assert sendTo - rest == sendTo;
  }

  /** Flushing one more collected listener clears its staged bucket and hands that bucket over. */
  lemma ClearedStep(staged: Buckets, done: set<Listener>, l: Listener)
    requires l in staged && |staged[l]| > 0 && l !in done
    ensures Flush(Cleared(staged, done), l) == (Cleared(staged, done + {l}), Some(staged[l]))
  {
    assert Cleared(staged, done)[l := map[]] == Cleared(staged, done + {l});
  }

  // ---- the duplicate-subscription guard ----

  /** A key of `self._observer_listener` or a value looked up in it: an `int` id or a listener object. */
  datatype PyKey = IdKey(id: nat) | ObjectKey(listener: Listener)

  /** The guard as written: the listener object is looked up in a dict whose keys are ids. */
  predicate GuardAsWritten(observerKeys: set<PyKey>, l: Listener) {
    ObjectKey(l) in observerKeys
  }

  /** The guard as written never fires: the dict only ever holds ids, so a second subscription goes through. */
  lemma GuardAsWrittenNeverFires(observerKeys: set<PyKey>, l: Listener)
    requires forall k :: k in observerKeys ==> k.IdKey?
    ensures !GuardAsWritten(observerKeys + {IdKey(l)}, l)
  {
  }

  /** The guard as intended: a listener already subscribed is refused. */
  predicate GuardIntended(observerIds: set<Listener>, l: Listener) {
    l in observerIds
  }

  datatype DispatchError = AlreadySubscribed(listener: Listener)

  /** The listener is in the entry that registering `topic` joins. */
  predicate Enrolled(exact: Dict<string, TopicMatch>, wildcard: seq<TopicMatch>, l: Listener, topic: string) {
    if IsWildcard(topic) then
      var i := IndexOfTopic(wildcard, topic); i >= 0 && l in wildcard[i].listeners
    else
      Get(exact, topic).Some? && l in Get(exact, topic).value.listeners
  }

  /** Registering an enrolled listener again changes neither table: adding to a set is idempotent. */
  lemma RegisterEnrolledUnchanged(exact: Dict<string, TopicMatch>, wildcard: seq<TopicMatch>, l: Listener, topic: string)
    requires DistinctKeys(exact) && Enrolled(exact, wildcard, l, topic)
    ensures Register(exact, wildcard, l, topic) == (exact, wildcard)
  {
    if IsWildcard(topic) {
      var i := IndexOfTopic(wildcard, topic);
      assert Subscribe(wildcard[i], l) == wildcard[i];
      assert wildcard[i := wildcard[i]] == wildcard;
    } else {
      var m := Get(exact, topic).value;
      assert Subscribe(m, l) == m;
      GetFound(exact, topic);
      var i :| 0 <= i < |exact| && exact[i] == (topic, m);
      PutExisting(exact, topic, m, i);
      assert exact[i := (topic, m)] == exact;
    }
  }

  /** Registration enrolls the listener for its topic and keeps every enrollment there was. */
  lemma RegisterEnrolls(exact: Dict<string, TopicMatch>, wildcard: seq<TopicMatch>, l: Listener, topic: string,
                        l': Listener, topic': string)
    requires Tables(exact, wildcard)
    ensures var (e, w) := Register(exact, wildcard, l, topic);
      Enrolled(e, w, l, topic) && (Enrolled(exact, wildcard, l', topic') ==> Enrolled(e, w, l', topic'))
  {
    var (e, w) := Register(exact, wildcard, l, topic);
    if IsWildcard(topic) {
      var i := IndexOfTopic(wildcard, topic);
      if i < 0 {
        assert w == wildcard + [NewMatch(topic, l)];
        IndexOfTopicIs(w, topic, |wildcard|);
        if IsWildcard(topic') && IndexOfTopic(wildcard, topic') >= 0 {
          IndexOfTopicIs(w, topic', IndexOfTopic(wildcard, topic'));
        }
      } else {
        assert w == wildcard[i := Subscribe(wildcard[i], l)];
        IndexOfTopicIs(w, topic, i);
        if IsWildcard(topic') && IndexOfTopic(wildcard, topic') >= 0 {
          IndexOfTopicIs(w, topic', IndexOfTopic(wildcard, topic'));
        }
      }
    } else {
      var m := Get(exact, topic);
      var v := if m.Some? then Subscribe(m.value, l) else NewMatch(topic, l);
      assert e == Put(exact, topic, v);
      PutGet(exact, topic, v, topic);
      PutGet(exact, topic, v, topic');
    }
  }

  /** `next(...)` finds the index `k` when `k` is the first entry holding the topic. */
  lemma IndexOfTopicIs(ms: seq<TopicMatch>, topic: string, k: nat)
    requires k < |ms| && ms[k].topic == topic && forall j :: 0 <= j < k ==> ms[j].topic != topic
    ensures IndexOfTopic(ms, topic) == k
  {
  }

  /** After the registration loop, the listener is enrolled for every topic it listed. */
  lemma {:induction false} RegisterAllEnrolls(exact: Dict<string, TopicMatch>, wildcard: seq<TopicMatch>, l: Listener,
                                              topics: seq<string>, k: nat)
    requires Tables(exact, wildcard) && k < |topics|
    ensures var (e, w) := RegisterAll(exact, wildcard, l, topics); Enrolled(e, w, l, topics[k])
    decreases |topics|
  {
    var n := |topics| - 1;
    var front := topics[..n];
    var (e1, w1) := RegisterAll(exact, wildcard, l, front);
    RegisterAllKeepsTables(exact, wildcard, l, front);
    RegisterEnrolls(e1, w1, l, topics[n], l, topics[k]);
    if k < n {
      assert front[k] == topics[k];
      RegisterAllEnrolls(exact, wildcard, l, front, k);
    }
  }

  /** The registration loop over topics the listener is enrolled for changes nothing. */
  lemma {:induction false} RegisterAllEnrolledUnchanged(exact: Dict<string, TopicMatch>, wildcard: seq<TopicMatch>, l: Listener,
                                                        topics: seq<string>)
    requires Tables(exact, wildcard)
    requires forall k :: 0 <= k < |topics| ==> Enrolled(exact, wildcard, l, topics[k])
    ensures RegisterAll(exact, wildcard, l, topics) == (exact, wildcard)
    decreases |topics|
  {
    if topics != [] {
      var n := |topics| - 1;
      var front := topics[..n];
      assert forall k :: 0 <= k < n ==> front[k] == topics[k];
      RegisterAllEnrolledUnchanged(exact, wildcard, l, front);
      RegisterEnrolledUnchanged(exact, wildcard, l, topics[n]);
    }
  }

  /** Running the registration loop twice for the same listener and topics is running it once. */
  lemma RegisterAllIdempotent(exact: Dict<string, TopicMatch>, wildcard: seq<TopicMatch>, l: Listener, topics: seq<string>)
    requires Tables(exact, wildcard)
    ensures var (e, w) := RegisterAll(exact, wildcard, l, topics); RegisterAll(e, w, l, topics) == (e, w)
  {
    var (e, w) := RegisterAll(exact, wildcard, l, topics);
    RegisterAllKeepsTables(exact, wildcard, l, topics);
    forall k | 0 <= k < |topics| ensures Enrolled(e, w, l, topics[k]) {
      RegisterAllEnrolls(exact, wildcard, l, topics, k);
    }
    RegisterAllEnrolledUnchanged(e, w, l, topics);
  }

  /** What `subscribe_mqtt_topics` changes, as written: the keys of `_observer_listener`, the max debounce time, the tables. */
  datatype Subscriptions = Subscriptions(observerKeys: set<PyKey>, maxDebounceTime: real,
                                         exact: Dict<string, TopicMatch>, wildcard: seq<TopicMatch>)

  /** `subscribe_mqtt_topics` as written, with its guard looking the listener object up among ids. */
  function SubscribeAsWritten(s: Subscriptions, l: Listener, topics: seq<string>, debounceTime: real)
    : (Outcome<DispatchError>, Subscriptions)
  {
    if GuardAsWritten(s.observerKeys, l) then (Fail(AlreadySubscribed(l)), s)
    else
      var (e, w) := RegisterAll(s.exact, s.wildcard, l, topics);
      (Pass, Subscriptions(s.observerKeys + {IdKey(l)},
                           if s.maxDebounceTime < debounceTime then debounceTime else s.maxDebounceTime, e, w))
  }

  /**
   * As written, a second `subscribe_mqtt_topics` for the same listener is not
   * refused: it passes and registers its topics like the first. With the same
   * topics and debounce time it leaves the id dict, the max debounce time and
   * both tables exactly as the first call left them.
   */
  lemma SecondSubscribeGoesThrough(s: Subscriptions, l: Listener, topics: seq<string>, debounceTime: real,
                                   topics2: seq<string>, debounceTime2: real)
    requires Tables(s.exact, s.wildcard) && forall k :: k in s.observerKeys ==> k.IdKey?
    ensures var (r1, s1) := SubscribeAsWritten(s, l, topics, debounceTime);
      var (r2, s2) := SubscribeAsWritten(s1, l, topics2, debounceTime2);
      r1 == Pass && r2 == Pass && s2.observerKeys == s1.observerKeys
      && (s2.exact, s2.wildcard) == RegisterAll(s1.exact, s1.wildcard, l, topics2)
      && (topics2 == topics && debounceTime2 == debounceTime ==> s2 == s1)
  {
    var (r1, s1) := SubscribeAsWritten(s, l, topics, debounceTime);
    assert ObjectKey(l) !in s.observerKeys;
    GuardAsWrittenNeverFires(s.observerKeys, l);
    assert s1.observerKeys + {IdKey(l)} == s1.observerKeys;
    RegisterAllIdempotent(s.exact, s.wildcard, l, topics);
  }

  class Dispatcher {
    var shutdown: bool
    /** The cron watermark, in microseconds. */
    var lastCronTime: int
    var maxDebounceTime: real
    var notifications: Buckets
    var exactTopicMatches: Dict<string, TopicMatch>
    var wildcardTopicMatches: seq<TopicMatch>
    var cronSubscriptions: Dict<string, TopicMatch>
    /** The ids that `self._observer_listener` holds. */
    var observerListener: set<Listener>
    /** Listeners whose debounce pipeline holds an id that has not fired yet. */
    var ticked: set<Listener>
    /** Every `listener.add_notifications(...)` call, in order. */
    var deliveries: seq<(Listener, NotificationSet)>

    ghost predicate Valid()
      reads this`exactTopicMatches, this`wildcardTopicMatches, this`cronSubscriptions
    {
      Tables(exactTopicMatches, wildcardTopicMatches) && DistinctKeys(cronSubscriptions)
    }

    constructor(now: int)
      ensures Valid()
      ensures !shutdown && lastCronTime == now && maxDebounceTime == 0.0
      ensures notifications == map[] && exactTopicMatches == [] && wildcardTopicMatches == [] && cronSubscriptions == []
      ensures observerListener == {} && ticked == {} && deliveries == []
    {
      shutdown := false;
      lastCronTime := now;
      maxDebounceTime := 0.0;
      notifications := map[];
      exactTopicMatches := [];
      wildcardTopicMatches := [];
      cronSubscriptions := [];
      observerListener := {};
      ticked := {};
      deliveries := [];
    }

    /** `close`, as far as the tables go: it raises the shutdown flag. */
    method Close()
      modifies this`shutdown
      ensures shutdown
    {
      shutdown := true;
    }

    /** `get_mqtt_topics`. */
    function GetMqttTopics(): (topics: seq<string>)
      reads this
      requires Valid()
      ensures Distinct(topics)
      ensures |topics| == |wildcardTopicMatches| + |exactTopicMatches|
      ensures forall i :: 0 <= i < |wildcardTopicMatches| ==> topics[i] == wildcardTopicMatches[i].topic
      ensures forall i :: 0 <= i < |exactTopicMatches| ==> topics[|wildcardTopicMatches| + i] == exactTopicMatches[i].0
    {
      TopicListDistinct(exactTopicMatches, wildcardTopicMatches);
      TopicList(exactTopicMatches, wildcardTopicMatches)
    }

    /** The `next(...)` search over the wildcard table. */
    method FindWildcard(topic: string) returns (i: int)
      ensures i == IndexOfTopic(wildcardTopicMatches, topic)
    {
      i := 0;
      while i < |wildcardTopicMatches|
        invariant 0 <= i <= |wildcardTopicMatches|
        invariant forall j :: 0 <= j < i ==> wildcardTopicMatches[j].topic != topic
      {
        if wildcardTopicMatches[i].topic == topic {
          return;
        }
        i := i + 1;
      }
      i := -1;
    }

    /** `_register_mqtt_topic`. */
    method RegisterMqttTopic(l: Listener, topic: string)
      modifies this`exactTopicMatches, this`wildcardTopicMatches
      ensures (exactTopicMatches, wildcardTopicMatches) == Register(old(exactTopicMatches), old(wildcardTopicMatches), l, topic)
    {
      var pattern := WildcardPattern(topic);
      WildcardIff(topic);
      if pattern.Some? && pattern.value != [] {
        var i := FindWildcard(topic);
        if i < 0 {
          wildcardTopicMatches := wildcardTopicMatches + [TopicMatch(topic, pattern, {l})];
        } else {
          wildcardTopicMatches := wildcardTopicMatches[i := Subscribe(wildcardTopicMatches[i], l)];
        }
      } else {
        var m := Get(exactTopicMatches, topic);
        if m.None? {
          exactTopicMatches := Put(exactTopicMatches, topic, TopicMatch(topic, None, {l}));
        } else {
          exactTopicMatches := Put(exactTopicMatches, topic, Subscribe(m.value, l));
        }
      }
    }

    /** `subscribe_mqtt_topics`, registration part; the guard is the intended one (see GuardAsWritten). */
    method SubscribeMqttTopics(l: Listener, topics: seq<string>, debounceTime: real) returns (r: Outcome<DispatchError>)
      requires Valid()
      modifies this`observerListener, this`maxDebounceTime, this`exactTopicMatches, this`wildcardTopicMatches
      ensures Valid()
      ensures GuardIntended(old(observerListener), l) ==>
        r == Fail(AlreadySubscribed(l)) && observerListener == old(observerListener) && maxDebounceTime == old(maxDebounceTime)
        && exactTopicMatches == old(exactTopicMatches) && wildcardTopicMatches == old(wildcardTopicMatches)
      ensures !GuardIntended(old(observerListener), l) ==>
        r == Pass && observerListener == old(observerListener) + {l}
        && maxDebounceTime == (if old(maxDebounceTime) < debounceTime then debounceTime else old(maxDebounceTime))
        && (exactTopicMatches, wildcardTopicMatches) == RegisterAll(old(exactTopicMatches), old(wildcardTopicMatches), l, topics)
    {
      if l in observerListener {
        return Fail(AlreadySubscribed(l));
      }
      observerListener := observerListener + {l};
      if maxDebounceTime < debounceTime {
        maxDebounceTime := debounceTime;
      }
      RegisterMqttTopics(l, topics);
      r := Pass;
    }

    /** The `for topic in topics` loop of `subscribe_mqtt_topics`. */
    method RegisterMqttTopics(l: Listener, topics: seq<string>)
      requires Valid()
      modifies this`exactTopicMatches, this`wildcardTopicMatches
      ensures Valid()
      ensures (exactTopicMatches, wildcardTopicMatches) == RegisterAll(old(exactTopicMatches), old(wildcardTopicMatches), l, topics)
    {
      var i := 0;
      while i < |topics|
        invariant 0 <= i <= |topics|
        invariant (exactTopicMatches, wildcardTopicMatches) == RegisterAll(old(exactTopicMatches), old(wildcardTopicMatches), l, topics[..i])
        invariant Valid()
      {
        assert topics[..i + 1][..i] == topics[..i];
        RegisterKeepsTables(exactTopicMatches, wildcardTopicMatches, l, topics[i]);
        RegisterMqttTopic(l, topics[i]);
        i := i + 1;
      }
      assert topics[..i] == topics;
    }

    /** `subscribe_cron`. */
    method SubscribeCron(l: Listener, cron: string, topic: string)
      requires Valid()
      modifies this`cronSubscriptions
      ensures Valid()
      ensures cronSubscriptions == CronSubscribe(old(cronSubscriptions), cron, topic, l)
    {
      var m := Get(cronSubscriptions, cron);
      if m.None? {
        cronSubscriptions := Put(cronSubscriptions, cron, TopicMatch(topic, None, {l}));
      } else {
        cronSubscriptions := Put(cronSubscriptions, cron, Subscribe(m.value, l));
      }
      PutDistinct(old(cronSubscriptions), cron, if m.Some? then Subscribe(m.value, l) else TopicMatch(topic, None, {l}));
    }

    /** `_store_notification`: the bucket is created on first use and the notification replaces one of the same identity. */
    method StoreNotification(l: Listener, n: Notification)
      modifies this`notifications
      ensures notifications == old(notifications)[l := Add(BucketOf(old(notifications), l), n)]
    {
      var bucket := if l in notifications then notifications[l] else map[];
      notifications := notifications[l := bucket];
      notifications := notifications[l := Add(notifications[l], n)];
    }

    /** `_send_notifications`. */
    method SendNotifications(l: Listener)
      modifies this`notifications, this`deliveries
      ensures notifications == Flush(old(notifications), l).0
      ensures deliveries == old(deliveries) + (var sent := Flush(old(notifications), l).1; if sent.Some? then [(l, sent.value)] else [])
    {
      if l in notifications && |notifications[l]| > 0 {
        deliveries := deliveries + [(l, notifications[l])];
        notifications := notifications[l := Clear(notifications[l])];
      }
    }

    /** The debounce pipeline of `l` fires (`_send_notifications_by_id`). */
    method DebounceElapsed(l: Listener)
      modifies this`ticked, this`notifications, this`deliveries
      ensures ticked == old(ticked) - {l}
      ensures l in old(ticked) ==>
        notifications == Flush(old(notifications), l).0
        && deliveries == old(deliveries) + (var sent := Flush(old(notifications), l).1; if sent.Some? then [(l, sent.value)] else [])
      ensures l !in old(ticked) ==> notifications == old(notifications) && deliveries == old(deliveries)
    {
      if l in ticked {
        ticked := ticked - {l};
        SendNotifications(l);
      }
    }

    /** `timer_closure`, run by the timer job of `subscribe_timer`. */
    method TimerClosure(l: Listener, topic: string)
      modifies this`notifications, this`deliveries
      ensures var stored := old(notifications)[l := Add(BucketOf(old(notifications), l), Notification(Timer, topic, None))];
        notifications == Flush(stored, l).0 && deliveries == old(deliveries) + [(l, stored[l])]
    {
      StoreNotification(l, Notification(Timer, topic, None));
      assert KeyOf(Notification(Timer, topic, None)) in notifications[l];
      SendNotifications(l);
    }

    /** The listener set `push_mqtt_messages` builds for one message. */
    method MatchListeners(topic: string) returns (ls: set<Listener>)
      ensures ls == Route(exactTopicMatches, wildcardTopicMatches, topic)
    {
      ls := {};
      var m := Get(exactTopicMatches, topic);
      if m.Some? {
        ls := ls + m.value.listeners;
      }
      var i := 0;
      while i < |wildcardTopicMatches|
        invariant 0 <= i <= |wildcardTopicMatches|
        invariant ls == ExactListeners(exactTopicMatches, topic) + WildcardListeners(wildcardTopicMatches[..i], topic)
      {
        var w := wildcardTopicMatches[i];
        if w.searchPattern.Some? && StartsWith(topic, w.searchPattern.value) {
          ls := ls + w.listeners;
        }
        assert wildcardTopicMatches[..i + 1][..i] == wildcardTopicMatches[..i];
        i := i + 1;
      }
      assert wildcardTopicMatches[..i] == wildcardTopicMatches;
    }

    /** The inner loop of `push_mqtt_messages`: store `n` for every listener in `ls` and tick its pipeline. */
    method StoreAndTick(ls: set<Listener>, n: Notification)
      modifies this`notifications, this`ticked
      ensures notifications == StoreTo(old(notifications), ls, n)
      ensures ticked == old(ticked) + ls
    {
      var rest := ls;
      ghost var bs := notifications;
      while rest != {}
        invariant rest <= ls
        invariant Stored(bs, ls - rest, n, notifications)
        invariant ticked == old(ticked) + (ls - rest)
        decreases |rest|
      {
        var l :| l in rest;
        ghost var done := ls - rest;
        StoredStep(bs, done, l, n, notifications);
        StoreNotification(l, n);
        ticked := ticked + {l};
        rest := rest - {l};
        assert ls - rest == done + {l};
      }
      assert ls - rest == ls;
      StoredIsStoreTo(bs, ls, n, notifications);
    }

    /** The inner loop of the cron staging in `trigger_timers`: store `n` for every listener in `ls`. */
    method StoreFor(ls: set<Listener>, n: Notification)
      modifies this`notifications
      ensures notifications == StoreTo(old(notifications), ls, n)
    {
      var rest := ls;
      ghost var bs := notifications;
      while rest != {}
        invariant rest <= ls
        invariant Stored(bs, ls - rest, n, notifications)
        decreases |rest|
      {
        var l :| l in rest;
        ghost var done := ls - rest;
        StoredStep(bs, done, l, n, notifications);
        StoreNotification(l, n);
        rest := rest - {l};
        assert ls - rest == done + {l};
      }
      assert ls - rest == ls;
      StoredIsStoreTo(bs, ls, n, notifications);
    }

    /** `push_mqtt_messages`; an undecodable message raises, after the messages before it were routed. */
    method PushMqttMessages(messages: seq<PahoMessage>) returns (r: Outcome<DecodeError>)
      modifies this`notifications, this`ticked
      ensures old(shutdown) ==> r == Pass && notifications == old(notifications) && ticked == old(ticked)
      ensures !old(shutdown) ==>
        var ns := DecodedPrefix(messages);
        (r.Pass? <==> |ns| == |messages|)
        && notifications == PushAll(old(notifications), exactTopicMatches, wildcardTopicMatches, ns)
        && ticked == old(ticked) + Reached(exactTopicMatches, wildcardTopicMatches, ns)
    {
      if shutdown {
        return Pass;
      }
      var i := 0;
      ghost var decoded: seq<Notification> := [];
      while i < |messages|
        invariant 0 <= i <= |messages| && |decoded| == i
        invariant DecodedAs(messages, decoded)
        invariant notifications == PushAll(old(notifications), exactTopicMatches, wildcardTopicMatches, decoded)
        invariant ticked == old(ticked) + Reached(exactTopicMatches, wildcardTopicMatches, decoded)
      {
        var res := CreateFromMqtt(messages[i]);
        if res.Err? {
          DecodedPrefixUnique(messages, decoded);
          return Fail(res.error);
        }
        var n := res.value;
        DecodedStep(messages, decoded, n);
        var listeners := MatchListeners(n.topic);
        PushStep(old(notifications), exactTopicMatches, wildcardTopicMatches, decoded, n);
        StoreAndTick(listeners, n);
        decoded := decoded + [n];
        i := i + 1;
      }
      DecodedPrefixUnique(messages, decoded);
      r := Pass;
    }

    /** The cron part of `trigger_timers`, with pycron's `has_been` as `hasBeen`. */
    method TriggerTimers(now: int, hasBeen: (string, int, int) -> bool)
      modifies this`notifications, this`lastCronTime, this`deliveries
      ensures old(shutdown) || old(lastCronTime) >= MinuteOf(now) ==>
        notifications == old(notifications) && lastCronTime == old(lastCronTime) && deliveries == old(deliveries)
      ensures !old(shutdown) && old(lastCronTime) < MinuteOf(now) ==>
        var (staged, sendTo) := CronStage(old(notifications), cronSubscriptions, hasBeen, old(lastCronTime), MinuteOf(now));
        lastCronTime == MinuteOf(now)
        && notifications == Cleared(staged, sendTo)
        && |deliveries| >= |old(deliveries)| && deliveries[..|old(deliveries)|] == old(deliveries)
        && DeliveredOnce(deliveries[|old(deliveries)|..], staged, sendTo)
    {
      if shutdown {
        return;
      }
      var minute := now - now % MinuteMicros;
      if lastCronTime < minute {
        ghost var stagedFrom := notifications;
        var sendTo := StageCrons(hasBeen, minute);
        var staged := notifications;
        CronStageBuckets(stagedFrom, cronSubscriptions, hasBeen, lastCronTime, minute);
        lastCronTime := minute;
        ghost var before := deliveries;
        ghost var sent := SendAll(sendTo, staged);
        assert deliveries[..|before|] == before && deliveries[|before|..] == sent;
      }
    }

    /** The staging loop of `trigger_timers`: every due cron subscription stores its notification for its listeners. */
    method StageCrons(hasBeen: (string, int, int) -> bool, minute: int) returns (sendTo: set<Listener>)
      modifies this`notifications
      ensures (notifications, sendTo) == CronStage(old(notifications), cronSubscriptions, hasBeen, lastCronTime, minute)
    {
      sendTo := {};
      var i := 0;
      while i < |cronSubscriptions|
        invariant 0 <= i <= |cronSubscriptions|
        invariant (notifications, sendTo) == CronStage(old(notifications), cronSubscriptions[..i], hasBeen, lastCronTime, minute)
      {
        assert cronSubscriptions[..i + 1][..i] == cronSubscriptions[..i];
        var (cron, m) := cronSubscriptions[i];
        if hasBeen(cron, lastCronTime, minute) {
          StoreFor(m.listeners, Notification(Cron, m.topic, None));
          sendTo := sendTo + m.listeners;
        }
        i := i + 1;
      }
      assert cronSubscriptions[..i] == cronSubscriptions;
    }

    /** The flush loop of `trigger_timers`: every collected listener receives its staged bucket once. */
    method SendAll(sendTo: set<Listener>, staged: map<Listener, NotificationSet>) returns (ghost sent: seq<(Listener, NotificationSet)>)
      requires notifications == staged
      requires forall l :: l in sendTo ==> l in staged && |staged[l]| > 0
      modifies this`notifications, this`deliveries
      ensures notifications == Cleared(staged, sendTo)
      ensures deliveries == old(deliveries) + sent
      ensures DeliveredOnce(sent, staged, sendTo)
    {
      var rest := sendTo;
      sent := [];
      SendStart(staged, sendTo);
      while rest != {}
        invariant rest <= sendTo
        invariant SendProgress(staged, sendTo, rest, notifications, sent)
        invariant deliveries == old(deliveries) + sent
        decreases |rest|
      {
        var l :| l in rest;
        SendStep(staged, sendTo, rest, notifications, sent, l);
        SendNotifications(l);
        AppendAssoc(old(deliveries), sent, [(l, staged[l])]);
        sent := sent + [(l, staged[l])];
        rest := rest - {l};
      }
      SendDone(staged, sendTo, rest, notifications, sent);
    }
  }

  /** The notifications of the messages before the first one that does not decode. */
  function DecodedPrefix(messages: seq<PahoMessage>): (ns: seq<Notification>)
    ensures |ns| <= |messages|
    ensures forall j :: 0 <= j < |ns| ==> CreateFromMqtt(messages[j]) == Ok(ns[j])
    ensures |ns| < |messages| ==> CreateFromMqtt(messages[|ns|]).Err?
  {
    if messages == [] then []
    else match CreateFromMqtt(messages[0])
      case Err(_) => []
      case Ok(n) => [n] + DecodedPrefix(messages[1..])
  }

  /** `ns` are the notifications the first `|ns|` messages decode to. */
  predicate DecodedAs(messages: seq<PahoMessage>, ns: seq<Notification>) {
    |ns| <= |messages| && forall j :: 0 <= j < |ns| ==> CreateFromMqtt(messages[j]) == Ok(ns[j])
  }

  lemma DecodedStep(messages: seq<PahoMessage>, ns: seq<Notification>, n: Notification)
    requires DecodedAs(messages, ns) && |ns| < |messages| && CreateFromMqtt(messages[|ns|]) == Ok(n)
    ensures DecodedAs(messages, ns + [n])
  {
  }

  /** The decoded prefix is the only sequence that decodes the messages up to the first failure. */
  lemma DecodedPrefixUnique(messages: seq<PahoMessage>, ns: seq<Notification>)
    requires DecodedAs(messages, ns)
    requires |ns| < |messages| ==> CreateFromMqtt(messages[|ns|]).Err?
    ensures ns == DecodedPrefix(messages)
  {
    var d := DecodedPrefix(messages);
    assert |d| == |ns|;
  }
}
