/** Depth subscriptions (`accessws/aw_depth.c`, `accessws/aw_server.c`): what the server keeps and sends, and
  what its subscribers then hold. */
module DepthFeed {
  import opened Wrappers
  import opened Decimal
  import opened DepthDiff

  type Session = nat

  datatype DepthKey = DepthKey(market: string, interval: string, limit: nat)
  datatype Depth = Depth(asks: seq<Level>, bids: seq<Level>)

  /** `depth_val` */
  datatype Entry = Entry(sessions: set<Session>, last: Option<Depth>, lastClean: int)

  /** A `depth.update` notification: a whole depth, or the levels that changed. */
  datatype Message = Clean(depth: Depth) | Diff(asks: seq<Level>, bids: seq<Level>)
  datatype Sent = Sent(to: set<Session>, message: Message)

  const CLEAN_INTERVAL: int := 60

  /** The limits and intervals that the configuration allows, and the number that `decimal` reads from a text, if
    there is one. */
  datatype Config = Config(limits: set<nat>, merges: set<Dec>, decimal: string -> Option<Dec>)

  datatype Event =
    | Subscribe(ses: Session, key: DepthKey)
    | Unsubscribe(ses: Session)
    | DepthReply(key: DepthKey, result: Depth, now: int)
    | ErrorReply(key: DepthKey)
    | Timer

  type Depths = map<DepthKey, Entry>

  // ----- What the server does

  function Without(depths: Depths, ses: Session): Depths {
    map k | k in depths :: depths[k].(sessions := depths[k].sessions - {ses})
  }

  /** `is_good_interval`: an interval is a text, and counts by its number. */
  predicate GoodInterval(c: Config, interval: string) {
    var merge := c.decimal(interval);
    merge.Some? && merge.value in c.merges
  }

  predicate Accepts(c: Config, key: DepthKey) {
    key.limit in c.limits && GoodInterval(c, key.interval)
  }

  function With(depths: Depths, ses: Session, key: DepthKey): Depths {
    var e := if key in depths then depths[key] else Entry({}, None, 0);
    depths[key := e.(sessions := e.sessions + {ses})]
  }

  /** `on_market_depth_reply`, the sends included. */
  function Answered(e: Entry, key: DepthKey, result: Depth, now: int): (Entry, seq<Sent>) {
    if e.last.None? then (e.(last := Some(result), lastClean := now), [Sent(e.sessions, Clean(result))])
    else
      var asks := ListDiff(e.last.value.asks, result.asks, RISING, |result.asks| >= key.limit);
      var bids := ListDiff(e.last.value.bids, result.bids, FALLING, |result.bids| >= key.limit);
      if asks == [] && bids == [] then (e, [])
      else if now - e.lastClean >= CLEAN_INTERVAL
        then (e.(last := Some(result), lastClean := now), [Sent(e.sessions, Clean(result))])
      else (e.(last := Some(result)), [Sent(e.sessions, Diff(asks, bids))])
  }

  function ServerStep(c: Config, depths: Depths, e: Event): (Depths, seq<Sent>) {
    match e
    case Subscribe(ses, key) =>
      var d := Without(depths, ses);
      if !Accepts(c, key) then (d, [])
      else
        var d' := With(d, ses, key);
        (d', if d'[key].last.Some? then [Sent({ses}, Clean(d'[key].last.value))] else [])
    case Unsubscribe(ses) => (Without(depths, ses), [])
    case DepthReply(key, result, now) =>
      if key !in depths then (depths, [])
      else
        var (entry, sent) := Answered(depths[key], key, result, now);
        (depths[key := entry], sent)
    case ErrorReply(key) => (depths - {key}, [])
    case Timer => (map k | k in depths && depths[k].sessions != {} :: depths[k], [])
  }

  class DepthServer {
    const c: Config
    var depths: Depths

    constructor (c: Config)
      ensures this.c == c && depths == map[]
    {
      this.c := c;
      depths := map[];
    }

    /** `depth_unsubscribe`: the session leaves every entry. */
    method Unsubscribe(ses: Session)
      modifies this
      ensures depths == Without(old(depths), ses)
    {
      var keys := depths.Keys;
      while keys != {}
        invariant keys <= depths.Keys == old(depths).Keys
        invariant forall k | k in depths :: depths[k] == if k in keys then old(depths)[k]
          else Without(old(depths), ses)[k]
        decreases |keys|
      {
        var k :| k in keys;
        depths := depths[k := depths[k].(sessions := depths[k].sessions - {ses})];
        keys := keys - {k};
      }
    }

    /** `depth_subscribe` */
    method Subscribe(ses: Session, key: DepthKey) returns (ok: bool)
      modifies this
      ensures ok == Accepts(c, key)
      ensures depths == if ok then With(old(depths), ses, key) else old(depths)
    {
      if key.limit !in c.limits {
        return false;
      }
      if !GoodInterval(c, key.interval) {
        return false;
      }
      if key !in depths {
        depths := depths[key := Entry({}, None, 0)];
      }
      depths := depths[key := depths[key].(sessions := depths[key].sessions + {ses})];
      ok := true;
    }

    /** `depth_send_clean` */
    method SendClean(ses: Session, key: DepthKey) returns (sent: seq<Sent>)
      ensures sent == if key in depths && depths[key].last.Some? then [Sent({ses}, Clean(depths[key].last.value))]
        else []
    {
      if key !in depths || depths[key].last.None? {
        return [];
      }
      sent := [Sent({ses}, Clean(depths[key].last.value))];
    }

    /** `on_method_depth_subscribe` */
    method OnSubscribe(ses: Session, key: DepthKey) returns (sent: seq<Sent>)
      modifies this
      ensures (depths, sent) == ServerStep(c, old(depths), Event.Subscribe(ses, key))
    {
      Unsubscribe(ses);
      var ok := Subscribe(ses, key);
      if !ok {
        return [];
      }
      sent := SendClean(ses, key);
    }

    /** `on_market_depth_reply` */
    method OnReply(key: DepthKey, result: Depth, now: int) returns (sent: seq<Sent>)
      modifies this
      ensures (depths, sent) == ServerStep(c, old(depths), DepthReply(key, result, now))
    {
      if key !in depths {
        return [];
      }
      var val := depths[key];
      if val.last.None? {
        depths := depths[key := val.(last := Some(result), lastClean := now)];
        return [Sent(val.sessions, Clean(result))];
      }
      var asks := GetListDiff(val.last.value.asks, result.asks, key.limit, RISING);
      var bids := GetListDiff(val.last.value.bids, result.bids, key.limit, FALLING);
      if asks == [] && bids == [] {
        assert depths[key := val] == depths;
        return [];
      }
      if now - val.lastClean >= CLEAN_INTERVAL {
        depths := depths[key := val.(last := Some(result), lastClean := now)];
        sent := [Sent(val.sessions, Clean(result))];
      } else {
        depths := depths[key := val.(last := Some(result))];
        sent := [Sent(val.sessions, Diff(asks, bids))];
      }
    }

    /** The error branch of `on_backend_recv_pkg` */
    method OnError(key: DepthKey)
      modifies this
      ensures depths == ServerStep(c, old(depths), ErrorReply(key)).0 == old(depths) - {key}
    {
      depths := depths - {key};
    }

    /** `on_timer`: entries without sessions go; a request is sent for each of the others. */
    method OnTimer() returns (requests: set<DepthKey>)
      modifies this
      ensures depths == ServerStep(c, old(depths), Timer).0 && requests == depths.Keys
      ensures requests == (set k | k in old(depths) && old(depths)[k].sessions != {})
        && forall k | k in depths :: depths[k] == old(depths)[k]
    {
      var keys := depths.Keys;
      requests := {};
      while keys != {}
        invariant keys <= depths.Keys <= old(depths).Keys
        invariant forall k | k in old(depths) :: (k in depths <==> k in keys || old(depths)[k].sessions != {})
        invariant forall k | k in depths :: depths[k] == old(depths)[k]
        invariant requests == depths.Keys - keys
        decreases |keys|
      {
        var k :| k in keys;
        keys := keys - {k};
        if depths[k].sessions == {} {
          depths := depths - {k};
        } else {
          requests := requests + {k};
        }
      }
    }
  }

  // ----- What the subscribers hold

  /** A subscriber starts with nothing when it subscribes, takes whole depths as they are, and applies
    differences, keeping the number of levels it subscribed to. */
  datatype View = View(depth: Option<Depth>, limit: nat)
  type Views = map<Session, View>

  function Receive(v: View, m: Message): View {
    match m
    case Clean(depth) => v.(depth := Some(depth))
    case Diff(asks, bids) =>
      if v.depth.None? then v
      else
        var asks', bids' := v.depth.value.asks, v.depth.value.bids;
        v.(depth := Some(Depth(ApplyDiff(asks', asks, RISING, v.limit), ApplyDiff(bids', bids, FALLING, v.limit))))
  }

  function Deliver(views: Views, sent: seq<Sent>): Views {
    if sent == [] then views
    else Deliver(map s | s in views :: if s in sent[0].to then Receive(views[s], sent[0].message)
      else views[s], sent[1..])
  }

  datatype Feed = Feed(depths: Depths, views: Views)

  function Step(c: Config, f: Feed, e: Event): Feed {
    var (depths, sent) := ServerStep(c, f.depths, e);
    var views := if e.Subscribe? && Accepts(c, e.key) then f.views[e.ses := View(None, e.key.limit)] else f.views;
    Feed(depths, Deliver(views, sent))
  }

  function Run(c: Config, f: Feed, events: seq<Event>): Feed
    decreases |events|
  {
    if events == [] then f else Run(c, Step(c, f, events[0]), events[1..])
  }

  ghost predicate GoodDepth(d: Depth, limit: nat) {
    Good(d.asks, RISING, limit) && Good(d.bids, FALLING, limit)
  }

  /** Every subscriber of an entry that has a snapshot holds exactly that snapshot, and no session
    subscribes to two entries. */
  ghost predicate InSync(f: Feed) {
    && (forall k | k in f.depths && f.depths[k].last.Some? :: GoodDepth(f.depths[k].last.value, k.limit))
    && (forall k, s | k in f.depths && s in f.depths[k].sessions :: s in f.views && f.views[s].limit == k.limit)
    && (forall k, s | k in f.depths && s in f.depths[k].sessions && f.depths[k].last.Some? ::
      f.views[s].depth == f.depths[k].last)
    && (forall j, k, s | j in f.depths && k in f.depths && s in f.depths[j].sessions && s in f.depths[k].sessions ::
      j == k)
  }

  ghost predicate GoodEvent(e: Event) {
    e.DepthReply? ==> GoodDepth(e.result, e.key.limit)
  }

  lemma NothingSent(views: Views)
    ensures Deliver(views, []) == views
  {
  }

  lemma OneSent(views: Views, m: Sent)
    ensures Deliver(views, [m]) == map s | s in views :: if s in m.to then Receive(views[s], m.message) else views[s]
  {
  }

  /** The difference of a new reply to the last one takes a subscriber from the last to the new. */
  lemma ReceiveDiff(last: Depth, result: Depth, limit: nat)
    requires GoodDepth(last, limit) && GoodDepth(result, limit)
    ensures var asks := ListDiff(last.asks, result.asks, RISING, |result.asks| >= limit);
      var bids := ListDiff(last.bids, result.bids, FALLING, |result.bids| >= limit);
      && Receive(View(Some(last), limit), Diff(asks, bids)) == View(Some(result), limit)
      && (asks == [] && bids == [] <==> last == result)
  {
    DiffApplies(last.asks, result.asks, RISING, limit);
    DiffApplies(last.bids, result.bids, FALLING, limit);
    DiffEmptyIff(last.asks, result.asks, RISING, limit);
    DiffEmptyIff(last.bids, result.bids, FALLING, limit);
  }

  lemma ReplyInSync(c: Config, f: Feed, key: DepthKey, result: Depth, now: int)
    requires InSync(f) && key in f.depths && GoodDepth(result, key.limit)
    ensures var f' := Step(c, f, DepthReply(key, result, now));
      InSync(f') && f'.depths[key].last == Some(result)
  {
    hide ListDiff, ApplyDiff, GoodDepth;
    var entry := f.depths[key];
    var e := DepthReply(key, result, now);
    var (entry', sent) := Answered(entry, key, result, now);
    NothingSent(f.views);
    if sent != [] { OneSent(f.views, sent[0]); assert sent == [sent[0]]; }
    if entry.last.Some? { ReceiveDiff(entry.last.value, result, key.limit); }
    forall s | s in entry.sessions
      ensures s in f.views && Deliver(f.views, sent)[s] == View(Some(result), key.limit)
    {
      assert f.views[s].limit == key.limit;
      if entry.last.Some? { assert f.views[s] == View(entry.last, key.limit); }
    }
    forall s | s in f.views && s !in entry.sessions ensures Deliver(f.views, sent)[s] == f.views[s] {}
  }

  lemma WithoutInSync(f: Feed, ses: Session)
    requires InSync(f)
    ensures InSync(Feed(Without(f.depths, ses), f.views))
  {
    hide GoodDepth;
  }

  lemma WithInSync(f: Feed, ses: Session, key: DepthKey)
    requires InSync(f) && forall k | k in f.depths :: ses !in f.depths[k].sessions
    ensures var d := With(f.depths, ses, key); InSync(Feed(d, f.views[ses := View(d[key].last, key.limit)]))
  {
    hide GoodDepth;
  }

  lemma SubscribeInSync(c: Config, f: Feed, ses: Session, key: DepthKey)
    requires InSync(f)
    ensures InSync(Step(c, f, Event.Subscribe(ses, key)))
  {
    hide InSync, Deliver;
    var d := Without(f.depths, ses);
    WithoutInSync(f, ses);
    if Accepts(c, key) {
      WithInSync(Feed(d, f.views), ses, key);
      SnapshotSent(f.views, ses, key, With(d, ses, key));
    } else {
      NothingSent(f.views);
    }
  }

  /** A new subscriber gets the snapshot if there is one. */
  lemma SnapshotSent(views: Views, ses: Session, key: DepthKey, d: Depths)
    requires key in d
    ensures Deliver(views[ses := View(None, key.limit)], if d[key].last.Some?
      then [Sent({ses}, Clean(d[key].last.value))] else [])
      == views[ses := View(d[key].last, key.limit)]
  {
    var start := views[ses := View(None, key.limit)];
    if d[key].last.Some? {
      OneSent(start, Sent({ses}, Clean(d[key].last.value)));
    } else {
      NothingSent(start);
    }
  }

  /** Every event keeps the subscribers in step with the server. */
  lemma StepInSync(c: Config, f: Feed, e: Event)
    requires InSync(f) && GoodEvent(e)
    ensures InSync(Step(c, f, e))
  {
    NothingSent(f.views);
    match e
    case Subscribe(ses, key) => SubscribeInSync(c, f, ses, key);
    case DepthReply(key, result, now) => if key in f.depths { ReplyInSync(c, f, key, result, now); }
    case Unsubscribe(ses) =>
    case ErrorReply(key) =>
    case Timer =>
  }

  /** Over every run: a subscriber of an entry with a snapshot holds exactly that snapshot. */
  lemma {:induction false} RunInSync(c: Config, f: Feed, events: seq<Event>)
    requires InSync(f) && forall e | e in events :: GoodEvent(e)
    ensures InSync(Run(c, f, events))
    decreases |events|
  {
    if events != [] {
      StepInSync(c, f, events[0]);
      RunInSync(c, Step(c, f, events[0]), events[1..]);
    }
  }

  /** Right after any reply for an entry that exists, at the end of any run, all of its subscribers hold
    exactly that reply. */
  lemma SubscribersHoldReply(c: Config, events: seq<Event>, key: DepthKey, result: Depth, now: int)
    requires (forall e | e in events :: GoodEvent(e)) && GoodDepth(result, key.limit)
    requires key in Run(c, Feed(map[], map[]), events).depths
    ensures var f := Step(c, Run(c, Feed(map[], map[]), events), DepthReply(key, result, now));
      key in f.depths && forall s | s in f.depths[key].sessions :: s in f.views && f.views[s].depth == Some(result)
  {
    hide GoodDepth, Run;
    var start := Feed(map[], map[]);
    RunInSync(c, start, events);
    ReplyInSync(c, Run(c, start, events), key, result, now);
  }

  /** What a reply makes the server send to the subscribers of its entry: nothing if it is what they have; all of it if
    they have nothing, or if the last whole depth is sixty seconds old; else a difference that leads to it. */
  lemma ReplySends(c: Config, depths: Depths, key: DepthKey, result: Depth, now: int)
    requires key in depths && GoodDepth(result, key.limit)
    requires depths[key].last.Some? ==> GoodDepth(depths[key].last.value, key.limit)
    ensures var (after, sent) := ServerStep(c, depths, DepthReply(key, result, now)); var e := depths[key];
      var whole := e.last.None? || (e.last.value != result && now - e.lastClean >= 60);
      && after == depths[key := Entry(e.sessions, Some(result), if whole then now else e.lastClean)]
      && (sent == [] <==> e.last == Some(result))
      && (whole ==> sent == [Sent(e.sessions, Clean(result))])
      && (!whole && sent != [] ==>
        && |sent| == 1 && sent[0].to == e.sessions && sent[0].message.Diff?
        && Receive(View(e.last, key.limit), sent[0].message) == View(Some(result), key.limit))
  {
    hide ListDiff, GoodDepth, ApplyDiff;
    if depths[key].last.Some? { ReceiveDiff(depths[key].last.value, result, key.limit); }
  }

  // ----- Who subscribes to what

  /** The entry that a session asked for last, with a limit and an interval that the configuration allows, unless it
    has left since, or a request for the entry failed. */
  function Wish(c: Config, events: seq<Event>, ses: Session): Option<DepthKey>
    decreases |events|
  {
    if events == [] then None
    else
      var before := Wish(c, events[..|events| - 1], ses);
      match events[|events| - 1]
      case Subscribe(s, key) =>
        if s != ses then before
        else
          var merge := c.decimal(key.interval);
          if key.limit in c.limits && merge.Some? && merge.value in c.merges then Some(key) else None
      case Unsubscribe(s) => if s == ses then None else before
      case ErrorReply(key) => if before == Some(key) then None else before
      case _ => before
  }

  lemma {:induction false} RunLast(c: Config, f: Feed, events: seq<Event>, e: Event)
    ensures Run(c, f, events + [e]) == Step(c, Run(c, f, events), e)
    decreases |events|
  {
    hide Step;
    if events == [] {
      assert [e][1..] == [] && [] + [e] == [e];
    } else {
      assert (events + [e])[1..] == events[1..] + [e];
      RunLast(c, Step(c, f, events[0]), events[1..], e);
    }
  }

  /** After any run a session is a subscriber of the entry that it wishes for, and of no other; and there are only
    entries that the configuration allows. */
  lemma {:induction false} RunSubscribes(c: Config, events: seq<Event>, ses: Session, key: DepthKey)
    ensures var d := Run(c, Feed(map[], map[]), events).depths;
      && (key in d && ses in d[key].sessions <==> Wish(c, events, ses) == Some(key))
      && (key in d ==>
        key.limit in c.limits && c.decimal(key.interval).Some? && c.decimal(key.interval).value in c.merges)
    decreases |events|
  {
    hide Deliver, ListDiff;
    if events != [] {
      var front, e := events[..|events| - 1], events[|events| - 1];
      assert events == front + [e];
      RunSubscribes(c, front, ses, key);
      RunLast(c, Feed(map[], map[]), front, e);
      if e.Subscribe? { RunSubscribes(c, front, ses, e.key); }
    }
  }
}
