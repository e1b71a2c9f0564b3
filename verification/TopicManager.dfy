/**
 Topic subscriptions: which agents hold which patterns, indexed both ways, and who a topic reaches.
 Normalisation, pattern matching and the blank test are parameters.
 */
module TopicManager {

  datatype Config = Config(normalize: string -> string, matches: (string, string) -> bool, blank: string -> bool)

  type Table = map<string, set<string>>

  function Get(t: Table, k: string): set<string> {
    if k in t then t[k] else {}
  }

  /** Stores a set, or drops the entry when nothing is left in it. */
  function Put(t: Table, k: string, s: set<string>): Table {
    if s == {} then t - {k} else t[k := s]
  }

  /** The pattern index and the agent index. */
  datatype Index = Index(subscriptions: Table, agentPatterns: Table)

  const EMPTY := Index(map[], map[])

  ghost predicate NoEmpties(t: Table) {
    forall k :: k in t ==> t[k] != {}
  }

  ghost predicate Holds(ix: Index, agent: string, pattern: string) {
    agent in Get(ix.subscriptions, pattern)
  }

  /** The two tables are inverses of each other, with no empty entries. */
  ghost predicate Inverse(ix: Index) {
    && NoEmpties(ix.subscriptions) && NoEmpties(ix.agentPatterns)
    && forall a, p {:trigger Holds(ix, a, p)} :: Holds(ix, a, p) <==> p in Get(ix.agentPatterns, a)
  }

  datatype Event = Subscribed(agent: string, pattern: string) | Unsubscribed(agent: string, pattern: string)
                 | UnsubscribedAll(agent: string)

  predicate Refused(cfg: Config, e: Event) {
    e.Subscribed? && (cfg.blank(e.agent) || cfg.blank(e.pattern))
  }

  /** Whether agent `a` holds pattern `p` after the event. */
  ghost predicate HoldsAfter(cfg: Config, ix: Index, e: Event, a: string, p: string) {
    match e
    case Subscribed(agent, pattern) =>
      Holds(ix, a, p) || (!Refused(cfg, e) && a == agent && p == cfg.normalize(pattern))
    case Unsubscribed(agent, pattern) => Holds(ix, a, p) && !(a == agent && p == cfg.normalize(pattern))
    case UnsubscribedAll(agent) => Holds(ix, a, p) && a != agent
  }

  /** One index is another after an event: still consistent, and changed as the event says and no further. */
  ghost predicate Follows(cfg: Config, ix: Index, e: Event, ix': Index) {
    && Inverse(ix')
    && forall a, p {:trigger Holds(ix', a, p)} :: Holds(ix', a, p) <==> HoldsAfter(cfg, ix, e, a, p)
  }

  lemma SubscribeEffect(cfg: Config, ix: Index, e: Event)
    requires Inverse(ix) && e.Subscribed? && !Refused(cfg, e)
    ensures var p := cfg.normalize(e.pattern);
            Follows(cfg, ix, e, Index(ix.subscriptions[p := Get(ix.subscriptions, p) + {e.agent}],
                                      ix.agentPatterns[e.agent := Get(ix.agentPatterns, e.agent) + {p}]))
  {
    var n := cfg.normalize(e.pattern);
    var ix' := Index(ix.subscriptions[n := Get(ix.subscriptions, n) + {e.agent}],
                     ix.agentPatterns[e.agent := Get(ix.agentPatterns, e.agent) + {n}]);
    forall a, p ensures (Holds(ix', a, p) <==> HoldsAfter(cfg, ix, e, a, p)) &&
                        (p in Get(ix'.agentPatterns, a) <==> HoldsAfter(cfg, ix, e, a, p)) {
      assert Holds(ix, a, p) <==> p in Get(ix.agentPatterns, a);
    }
  }

  lemma UnsubscribeEffect(cfg: Config, ix: Index, e: Event)
    requires Inverse(ix) && e.Unsubscribed?
    ensures var p := cfg.normalize(e.pattern);
            Follows(cfg, ix, e, Index(Put(ix.subscriptions, p, Get(ix.subscriptions, p) - {e.agent}),
                                      Put(ix.agentPatterns, e.agent, Get(ix.agentPatterns, e.agent) - {p})))
  {
    var n := cfg.normalize(e.pattern);
    var ix' := Index(Put(ix.subscriptions, n, Get(ix.subscriptions, n) - {e.agent}),
                     Put(ix.agentPatterns, e.agent, Get(ix.agentPatterns, e.agent) - {n}));
    forall a, p ensures (Holds(ix', a, p) <==> HoldsAfter(cfg, ix, e, a, p)) &&
                        (p in Get(ix'.agentPatterns, a) <==> HoldsAfter(cfg, ix, e, a, p)) {
      assert Holds(ix, a, p) <==> p in Get(ix.agentPatterns, a);
    }
  }

  lemma UnsubscribeAllEffect(cfg: Config, ix: Index, agent: string, subscriptions: Table)
    requires Inverse(ix) && NoEmpties(subscriptions)
    requires forall p :: Get(subscriptions, p) ==
               if p in Get(ix.agentPatterns, agent) then Get(ix.subscriptions, p) - {agent}
               else Get(ix.subscriptions, p)
    ensures Follows(cfg, ix, UnsubscribedAll(agent), Index(subscriptions, ix.agentPatterns - {agent}))
  {
    var ix', e := Index(subscriptions, ix.agentPatterns - {agent}), UnsubscribedAll(agent);
    forall a, p ensures (Holds(ix', a, p) <==> HoldsAfter(cfg, ix, e, a, p)) &&
                        (p in Get(ix'.agentPatterns, a) <==> HoldsAfter(cfg, ix, e, a, p)) {
      assert Holds(ix, a, p) <==> p in Get(ix.agentPatterns, a);
      assert Holds(ix, agent, p) <==> p in Get(ix.agentPatterns, agent);
    }
  }

  // ---- Matching ---------------------------------------------------------------------------------

  ghost predicate Reaches(cfg: Config, t: Table, topic: string, agent: string) {
    exists p :: p in t && cfg.matches(cfg.normalize(topic), p) && agent in t[p]
  }

  class TopicManager {
    const config: Config
    var subscriptions: Table
    var agentPatterns: Table
    var publishCount: nat
    var totalDeliveries: nat

    function View(): Index
      reads this
    {
      Index(subscriptions, agentPatterns)
    }

    constructor (config: Config)
      ensures this.config == config && View() == EMPTY && Inverse(View())
      ensures publishCount == 0 && totalDeliveries == 0
    {
      this.config := config;
      subscriptions, agentPatterns, publishCount, totalDeliveries := map[], map[], 0, 0;
    }

    method Subscribe(agent: string, pattern: string) returns (ok: bool)
      requires Inverse(View())
      modifies this`subscriptions, this`agentPatterns
      ensures ok <==> !config.blank(agent) && !config.blank(pattern)
      ensures !ok ==> View() == old(View())
      ensures Follows(config, old(View()), Subscribed(agent, pattern), View())
    {
      if config.blank(agent) || config.blank(pattern) {
        return false;
      }
      SubscribeEffect(config, View(), Subscribed(agent, pattern));
      var p := config.normalize(pattern);
      subscriptions := subscriptions[p := Get(subscriptions, p) + {agent}];
      agentPatterns := agentPatterns[agent := Get(agentPatterns, agent) + {p}];
      ok := true;
    }

    method Unsubscribe(agent: string, pattern: string)
      requires Inverse(View())
      modifies this`subscriptions, this`agentPatterns
      ensures Follows(config, old(View()), Unsubscribed(agent, pattern), View())
    {
      UnsubscribeEffect(config, View(), Unsubscribed(agent, pattern));
      var p := config.normalize(pattern);
      subscriptions := Put(subscriptions, p, Get(subscriptions, p) - {agent});
      agentPatterns := Put(agentPatterns, agent, Get(agentPatterns, agent) - {p});
    }

    /** Drops every pattern of an agent and says how many there were. */
    method UnsubscribeAll(agent: string) returns (count: nat)
      requires Inverse(View())
      modifies this`subscriptions, this`agentPatterns
      ensures Follows(config, old(View()), UnsubscribedAll(agent), View())
      ensures count == |Get(old(agentPatterns), agent)|
    {
      var patterns := Get(agentPatterns, agent);
      agentPatterns := agentPatterns - {agent};
      count := |patterns|;
      var left := patterns;
      while left != {}
        invariant left <= patterns && agentPatterns == old(agentPatterns) - {agent}
        invariant NoEmpties(subscriptions)
        invariant forall p :: Get(subscriptions, p) ==
                    if p in patterns && p !in left then Get(old(subscriptions), p) - {agent}
                    else Get(old(subscriptions), p)
        decreases left
      {
        var p :| p in left;
        subscriptions := Put(subscriptions, p, Get(subscriptions, p) - {agent});
        left := left - {p};
      }
      UnsubscribeAllEffect(config, old(View()), agent, subscriptions);
    }

    method ResolveSubscribers(topic: string) returns (matched: set<string>)
      ensures forall a :: a in matched <==> Reaches(config, subscriptions, topic, a)
    {
      matched := Collect(config, subscriptions, config.normalize(topic));
    }

    /** Publishing with nobody else at work: the same agents, and the counters move. */
    method Publish(topic: string) returns (matched: set<string>)
      modifies this`publishCount, this`totalDeliveries
      ensures forall a :: a in matched <==> Reaches(config, subscriptions, topic, a)
      ensures publishCount == old(publishCount) + 1
      ensures totalDeliveries == old(totalDeliveries) + |matched|
    {
      var finish;
      matched, finish := PublishDuring(config, [subscriptions], 0, topic);
      UndisturbedPublish(config, [subscriptions], 0, finish, topic, matched);
      publishCount := publishCount + 1;
      totalDeliveries := totalDeliveries + |matched|;
    }
  }

  method Collect(cfg: Config, t: Table, topic: string) returns (matched: set<string>)
    ensures forall a :: a in matched <==> exists p :: p in t && cfg.matches(topic, p) && a in t[p]
  {
    matched := {};
    var left := t.Keys;
    while left != {}
      invariant left <= t.Keys
      invariant forall a :: a in matched <==> exists p :: p in t && p !in left && cfg.matches(topic, p) && a in t[p]
      decreases left
    {
      var p :| p in left;
      if cfg.matches(topic, p) { matched := matched + t[p]; }
      left := left - {p};
    }
  }

  // ---- Publishing while subscriptions change ----------------------------------------------------

  /** The agent holds the pattern at every moment from `from` to `to`. */
  ghost predicate HeldThroughout(history: seq<Table>, from: nat, to: nat, agent: string, pattern: string) {
    to < |history| && forall t :: from <= t <= to ==> agent in Get(history[t], pattern)
  }

  ghost predicate ReachedAt(cfg: Config, history: seq<Table>, t: nat, topic: string, agent: string) {
    t < |history| && Reaches(cfg, history[t], topic, agent)
  }

  /** What publishing promises while the table passes through `history`. */
  ghost predicate Delivers(cfg: Config, history: seq<Table>, from: nat, to: nat, topic: string, matched: set<string>) {
    && (forall a, p :: HeldThroughout(history, from, to, a, p) && cfg.matches(cfg.normalize(topic), p) ==> a in matched)
    && (forall a :: a in matched ==> exists t :: from <= t <= to && ReachedAt(cfg, history, t, topic, a))
  }

  /** The promise so far, with the patterns in `seen` dealt with by the moment `now`. */
  ghost predicate Scanned(cfg: Config, history: seq<Table>, start: nat, now: nat, topic: string, seen: set<string>,
                          matched: set<string>)
  {
    && (forall a, p :: p in seen && HeldThroughout(history, start, now, a, p) && cfg.matches(cfg.normalize(topic), p)
          ==> a in matched)
    && (forall a :: a in matched ==> exists t :: start <= t <= now && ReachedAt(cfg, history, t, topic, a))
  }

  /**
   Publishing takes the lock once for the list of patterns and once more for every pattern that matches.
   `history` is the table at successive moments, changed in any way by others; each lock acquisition
   reads it at some moment no earlier than the one before.
   */
  method PublishDuring(cfg: Config, history: seq<Table>, start: nat, topic: string)
    returns (matched: set<string>, finish: nat)
    requires start < |history|
    ensures start <= finish < |history|
    ensures Delivers(cfg, history, start, finish, topic, matched)
  {
    matched := {};
    var now := start;
    var normalized := cfg.normalize(topic);
    var left := history[start].Keys;
    ghost var seen := {};
    while left != {}
      invariant start <= now < |history| && left + seen == history[start].Keys
      invariant Scanned(cfg, history, start, now, topic, seen, matched)
      decreases left
    {
      var p :| p in left;
      if cfg.matches(normalized, p) {
        var later :| now <= later < |history|;
        ReadOne(cfg, history, start, now, later, topic, p, seen, matched);
        matched, now := matched + Get(history[later], p), later;
      }
      left, seen := left - {p}, seen + {p};
    }
    finish := now;
    forall a, p | HeldThroughout(history, start, finish, a, p) && cfg.matches(cfg.normalize(topic), p)
      ensures a in matched
    {
      assert a in Get(history[start], p);
    }
  }

  lemma ReadOne(cfg: Config, history: seq<Table>, start: nat, now: nat, later: nat, topic: string, p: string,
                seen: set<string>, matched: set<string>)
    requires start <= now <= later < |history| && cfg.matches(cfg.normalize(topic), p)
    requires Scanned(cfg, history, start, now, topic, seen, matched)
    ensures Scanned(cfg, history, start, later, topic, seen + {p}, matched + Get(history[later], p))
  {
    forall a, q | q in seen + {p} && HeldThroughout(history, start, later, a, q) && cfg.matches(cfg.normalize(topic), q)
      ensures a in matched + Get(history[later], p)
    {
      assert HeldThroughout(history, start, now, a, q);
    }
    forall a | a in matched + Get(history[later], p)
      ensures exists t :: start <= t <= later && ReachedAt(cfg, history, t, topic, a)
    {
      if a in matched {
        var t :| start <= t <= now && ReachedAt(cfg, history, t, topic, a);
        assert start <= t <= later;
      } else {
        assert ReachedAt(cfg, history, later, topic, a);
      }
    }
  }

  /** If nothing changes meanwhile, publishing returns exactly the agents the topic reaches. */
  lemma UndisturbedPublish(cfg: Config, history: seq<Table>, from: nat, to: nat, topic: string, matched: set<string>)
    requires from <= to < |history| && Delivers(cfg, history, from, to, topic, matched)
    requires forall t :: from <= t <= to ==> history[t] == history[from]
    ensures forall a :: a in matched <==> Reaches(cfg, history[from], topic, a)
  {
    forall a ensures a in matched <==> Reaches(cfg, history[from], topic, a) {
      if Reaches(cfg, history[from], topic, a) {
        var p :| p in history[from] && cfg.matches(cfg.normalize(topic), p) && a in history[from][p];
        assert HeldThroughout(history, from, to, a, p);
      }
      if a in matched {
        var t :| from <= t <= to && ReachedAt(cfg, history, t, topic, a);
        assert history[t] == history[from];
      }
    }
  }

  // ---- Whole runs -------------------------------------------------------------------------------

  /** The indices a manager passes through, from empty, under the events given. */
  ghost predicate IsRun(cfg: Config, indices: seq<Index>, events: seq<Event>) {
    && |indices| == |events| + 1 && indices[0] == EMPTY
    && forall k :: 0 <= k < |events| ==> Follows(cfg, indices[k], events[k], indices[k + 1])
  }

  /** Whether the last event to speak about agent and pattern was an accepted subscription. */
  ghost predicate LastWord(cfg: Config, events: seq<Event>, a: string, p: string) {
    events != [] &&
    match events[|events| - 1]
    case Subscribed(agent, pattern) =>
      (!Refused(cfg, events[|events| - 1]) && a == agent && p == cfg.normalize(pattern)) ||
      LastWord(cfg, events[..|events| - 1], a, p)
    case Unsubscribed(agent, pattern) =>
      !(a == agent && p == cfg.normalize(pattern)) && LastWord(cfg, events[..|events| - 1], a, p)
    case UnsubscribedAll(agent) => a != agent && LastWord(cfg, events[..|events| - 1], a, p)
  }

  /**
   Over every run the tables stay inverse, and an agent holds a pattern exactly when the last word was
   to subscribe.
   */
  lemma {:induction false} HeldIffLastWord(cfg: Config, indices: seq<Index>, events: seq<Event>, k: nat, a: string,
                                           p: string)
    requires IsRun(cfg, indices, events) && k <= |events|
    ensures Inverse(indices[k])
    ensures Holds(indices[k], a, p) <==> LastWord(cfg, events[..k], a, p)
    ensures p in Get(indices[k].agentPatterns, a) <==> LastWord(cfg, events[..k], a, p)
  {
    if k > 0 {
      HeldIffLastWord(cfg, indices, events, k - 1, a, p);
      assert events[..k][..k - 1] == events[..k - 1];
      assert Follows(cfg, indices[k - 1], events[k - 1], indices[k]);
    }
    assert Holds(indices[k], a, p) <==> p in Get(indices[k].agentPatterns, a);
  }

  /** What is held decides both tables, keys included. */
  lemma HoldingDecides(ix: Index, ix': Index)
    requires Inverse(ix) && Inverse(ix')
    requires forall a, p {:trigger Holds(ix, a, p)} {:trigger Holds(ix', a, p)} :: Holds(ix, a, p) <==> Holds(ix', a, p)
    ensures ix == ix'
  {
    forall p ensures Get(ix.subscriptions, p) == Get(ix'.subscriptions, p) {
      forall a ensures a in Get(ix.subscriptions, p) <==> a in Get(ix'.subscriptions, p) {
        assert Holds(ix, a, p) <==> Holds(ix', a, p);
      }
    }
    forall a ensures Get(ix.agentPatterns, a) == Get(ix'.agentPatterns, a) {
      forall p ensures p in Get(ix.agentPatterns, a) <==> p in Get(ix'.agentPatterns, a) {
        assert Holds(ix, a, p) <==> Holds(ix', a, p);
      }
    }
    SameTable(ix.subscriptions, ix'.subscriptions);
    SameTable(ix.agentPatterns, ix'.agentPatterns);
  }

  lemma SameTable(t: Table, t': Table)
    requires NoEmpties(t) && NoEmpties(t') && forall k :: Get(t, k) == Get(t', k)
    ensures t == t'
  {
    forall k ensures k in t <==> k in t' { assert Get(t, k) == Get(t', k); }
    forall k | k in t ensures t[k] == t'[k] { assert Get(t, k) == Get(t', k); }
  }

  /** Unsubscribing takes back a subscription that was not there before: both tables are restored. */
  lemma UnsubscribeUndoes(cfg: Config, ix: Index, mid: Index, end: Index, agent: string, pattern: string)
    requires Inverse(ix) && !Holds(ix, agent, cfg.normalize(pattern))
    requires Follows(cfg, ix, Subscribed(agent, pattern), mid)
    requires Follows(cfg, mid, Unsubscribed(agent, pattern), end)
    ensures end == ix
  {
    forall a, p ensures Holds(end, a, p) <==> Holds(ix, a, p) {
      assert Holds(end, a, p) <==> HoldsAfter(cfg, mid, Unsubscribed(agent, pattern), a, p);
      assert Holds(mid, a, p) <==> HoldsAfter(cfg, ix, Subscribed(agent, pattern), a, p);
    }
    HoldingDecides(end, ix);
  }
}
