/**
 * The bridge: an ordered registry of listeners without duplicates, the
 * configuration pass that threads one configuration object through them, and
 * the polling loop that reports every fact whose start or end time falls in
 * the half-open window `[now - interval, now)` to every listener in order.
 *
 * The clock, the sleep and the tracker query are inputs: each iteration of the
 * loop is one supplied `Poll` (the clock reading and the facts the tracker
 * returned), and the calls the loop makes on listeners are recorded as a trace.
 */
module Bridge {
  import opened Wrappers
  import opened Facts
  import opened Listeners

  /** The half-open interval `[last, now)` one iteration scans. */
  datatype Window = Window(last: Micros, now: Micros)

  /** The clock reading truncated to whole seconds, and the window ending there. */
  function WindowAt(clock: Micros, interval: int): (w: Window)
    ensures w.now % MicrosPerSecond == 0 && w.now <= clock < w.now + MicrosPerSecond
    ensures w.now - w.last == interval * MicrosPerSecond
  {
    var now := clock - clock % MicrosPerSecond;
    Window(now - interval * MicrosPerSecond, now)
  }

  predicate InWindow(t: Option<Micros>, w: Window) {
    t.Some? && w.last <= t.value < w.now
  }

  /** The two notifications a fact can cause. */
  datatype Hook = FactStarted | FactStopped

  /** The timestamp that decides a hook: the start time for a start, the end time for a stop. */
  function Stamp(f: Fact, h: Hook): Option<Micros> {
    match h
    case FactStarted => f.startTime
    case FactStopped => f.endTime
  }

  /** One call the bridge makes on a listener. */
  datatype Event = Prepared(listener: HamsterListener) | Notified(hook: Hook, listener: HamsterListener, fact: Fact)

  /** One loop iteration's inputs: the clock reading and the facts the tracker returned. */
  datatype Poll = Poll(clock: Micros, facts: seq<Fact>)

  /** `prepare` on every listener, in registration order. */
  function PrepareEvents(ls: seq<HamsterListener>): (r: seq<Event>)
    ensures |r| == |ls|
    ensures forall i :: 0 <= i < |ls| ==> r[i] == Prepared(ls[i])
  {
    if |ls| == 0 then [] else PrepareEvents(ls[..|ls| - 1]) + [Prepared(ls[|ls| - 1])]
  }

  /** One hook for one fact on every listener, in registration order. */
  function Broadcast(ls: seq<HamsterListener>, h: Hook, f: Fact): (r: seq<Event>)
    ensures |r| == |ls|
    ensures forall i :: 0 <= i < |ls| ==> r[i] == Notified(h, ls[i], f)
  {
    if |ls| == 0 then [] else Broadcast(ls[..|ls| - 1], h, f) + [Notified(h, ls[|ls| - 1], f)]
  }

  /** What one fact causes in window `w`: its start fan-out, then its stop fan-out, each only if it fires. */
  function FactEvents(ls: seq<HamsterListener>, f: Fact, w: Window): seq<Event> {
    (if InWindow(f.startTime, w) then Broadcast(ls, FactStarted, f) else [])
      + (if InWindow(f.endTime, w) then Broadcast(ls, FactStopped, f) else [])
  }

  /**
   * What one iteration causes: the facts' events in the order the tracker
   * returned the facts. Every one notifies a registered listener of a returned
   * fact whose timestamp for that hook lies in the window.
   */
  function IterationEvents(ls: seq<HamsterListener>, facts: seq<Fact>, w: Window): (r: seq<Event>)
    ensures forall e :: e in r ==> e.Notified? && e.listener in ls && e.fact in facts && InWindow(Stamp(e.fact, e.hook), w)
  {
    if |facts| == 0 then []
    else
      var front := facts[..|facts| - 1];
      var g := facts[|facts| - 1];
      FactEventsSound(ls, g, w);
      SplitLast(facts);
      IterationEvents(ls, front, w) + FactEvents(ls, g, w)
  }

  /** What a sequence of iterations causes. */
  function PollEvents(ls: seq<HamsterListener>, polls: seq<Poll>, interval: int): seq<Event> {
    if |polls| == 0 then []
    else
      var p := polls[|polls| - 1];
      PollEvents(ls, polls[..|polls| - 1], interval) + IterationEvents(ls, p.facts, WindowAt(p.clock, interval))
  }

  /**
   * How many of the polls are carried out: `time.sleep` raises on a negative
   * interval, which ends the run after the first iteration.
   */
  function Completed(polls: seq<Poll>, interval: int): nat {
    if interval < 0 && |polls| > 0 then 1 else |polls|
  }

  /**
   * The calls `run` makes: `prepare` once on every listener in registration
   * order, and after that only notifications of registered listeners.
   */
  function RunTrace(ls: seq<HamsterListener>, polls: seq<Poll>, interval: int): (r: seq<Event>)
    requires Completed(polls, interval) <= |polls|
    ensures |ls| <= |r|
    ensures forall i :: 0 <= i < |ls| ==> r[i] == Prepared(ls[i])
    ensures forall i :: |ls| <= i < |r| ==> r[i].Notified? && r[i].listener in ls
  {
    PollEventsNotify(ls, polls[..Completed(polls, interval)], interval);
    PrepareEvents(ls) + PollEvents(ls, polls[..Completed(polls, interval)], interval)
  }

  class HamsterBridge {
    var listeners: seq<HamsterListener>

    ghost predicate Valid()
      reads this
    {
      NoDuplicates(listeners)
    }

    constructor ()
      ensures Valid() && listeners == []
    {
      listeners := [];
    }

    /** Registers a listener unless that very listener is already registered. */
    method AddListener(listener: HamsterListener)
      requires Valid()
      modifies this
      ensures Valid()
      ensures listeners == if listener in old(listeners) then old(listeners) else old(listeners) + [listener]
    {
      if listener !in listeners {
        listeners := listeners + [listener];
      }
    }

    /**
     * Reads the stored configuration (`stored` is `None` when there is no
     * file), hands one configuration object to every listener in registration
     * order, and returns what is written back. `prompted` logs, per listener,
     * the keys whose setup function ran.
     */
    method Configure(stored: Option<Sections>) returns (written: Sections, ghost shared: ConfigParser, ghost prompted: seq<seq<string>>)
      modifies set l | l in listeners
      ensures fresh(shared)
      ensures written == shared.sections == ReconcileAll(stored.GetOr(map[]), listeners)
      ensures forall l :: l in listeners ==> l.config == shared
      ensures prompted == PromptLog(stored.GetOr(map[]), listeners)
    {
      ghost var initial := stored.GetOr(map[]);
      var config := new ConfigParser(stored.GetOr(map[]));
      shared := config;
      prompted := [];
      for i := 0 to |listeners|
        invariant config.sections == ReconcileAll(initial, listeners[..i])
        invariant prompted == PromptLog(initial, listeners[..i])
        invariant forall j :: 0 <= j < i ==> listeners[j].config == config
      {
        var l := listeners[i];
        ReconcileAllStep(initial, listeners, i);
        var asked := l.Configure(config);
        assert config.sections == ReconcileAll(initial, listeners[..i + 1]);
        prompted := prompted + [asked];
      }
      assert listeners[..|listeners|] == listeners;
      written := config.sections;
    }

    /** Calls hook `h` with `fact` on every listener, in registration order. */
    method Notify(h: Hook, fact: Fact) returns (events: seq<Event>)
      ensures events == Broadcast(listeners, h, fact)
    {
      events := [];
      for k := 0 to |listeners|
        invariant events == Broadcast(listeners[..k], h, fact)
      {
        assert listeners[..k + 1][..k] == listeners[..k];
        events := events + [Notified(h, listeners[k], fact)];
      }
      assert listeners[..|listeners|] == listeners;
    }

    /** One iteration's fan-out: for each fact in order, its start and then its stop notifications. */
    method Iterate(facts: seq<Fact>, last: Micros, now: Micros) returns (events: seq<Event>)
      ensures events == IterationEvents(listeners, facts, Window(last, now))
    {
      events := [];
      for j := 0 to |facts|
        invariant events == IterationEvents(listeners, facts[..j], Window(last, now))
      {
        var fact := facts[j];
        var started: seq<Event> := [];
        var stopped: seq<Event> := [];
        if fact.startTime.Some? && last <= fact.startTime.value < now {
          started := Notify(FactStarted, fact);
        }
        if fact.endTime.Some? && last <= fact.endTime.value < now {
          stopped := Notify(FactStopped, fact);
        }
        assert started + stopped == FactEvents(listeners, fact, Window(last, now));
        assert facts[..j + 1][..j] == facts[..j];
        events := events + (started + stopped);
      }
      assert facts[..|facts|] == facts;
    }

    /** Calls `prepare` on every listener, in registration order. */
    method PrepareAll() returns (events: seq<Event>)
      ensures events == PrepareEvents(listeners)
    {
      events := [];
      for i := 0 to |listeners|
        invariant events == PrepareEvents(listeners[..i])
      {
        assert listeners[..i + 1][..i] == listeners[..i];
        events := events + [Prepared(listeners[i])];
      }
      assert listeners[..|listeners|] == listeners;
    }

    /**
     * Prepares every listener, then carries out the polls in order (the last
     * poll is where the operator interrupts). `failed` reports that the sleep
     * rejected a negative interval.
     */
    method Run(polls: seq<Poll>, interval: int) returns (trace: seq<Event>, failed: bool)
      ensures trace == RunTrace(listeners, polls, interval)
      ensures failed <==> interval < 0 && |polls| > 0
    {
      var prepared := PrepareAll();
      var polled: seq<Event> := [];
      failed := false;
      var n := 0;
      while n < |polls| && !failed
        invariant 0 <= n <= |polls|
        invariant failed <==> interval < 0 && n > 0
        invariant interval < 0 ==> n <= 1
        invariant polled == PollEvents(listeners, polls[..n], interval)
        decreases |polls| - n
      {
        var now := polls[n].clock - polls[n].clock % MicrosPerSecond;
        var last := now - interval * MicrosPerSecond;
        assert Window(last, now) == WindowAt(polls[n].clock, interval);
        var events := Iterate(polls[n].facts, last, now);
        PollEventsStep(listeners, polls, interval, n);
        polled := polled + events;
        n := n + 1;
        // time.sleep refuses a negative interval
        failed := interval < 0;
      }
      assert n == Completed(polls, interval);
      assert RunTrace(listeners, polls, interval) == prepared + PollEvents(listeners, polls[..n], interval);
      trace := prepared + polled;
    }
  }

  lemma PollEventsStep(ls: seq<HamsterListener>, polls: seq<Poll>, interval: int, n: nat)
    requires n < |polls|
    ensures PollEvents(ls, polls[..n + 1], interval)
         == PollEvents(ls, polls[..n], interval) + IterationEvents(ls, polls[n].facts, WindowAt(polls[n].clock, interval))
  {
    assert polls[..n + 1][..n] == polls[..n];
  }

  /** The configuration after every listener, in order, has reconciled it. */
  function ReconcileAll(sections: Sections, ls: seq<HamsterListener>): Sections {
    if |ls| == 0 then sections
    else
      var l := ls[|ls| - 1];
      Reconcile(ReconcileAll(sections, ls[..|ls| - 1]), l.shortName, l.configValues, l.setup)
  }

  /** Per listener, in order, the keys whose setup function runs at its turn. */
  function PromptLog(sections: Sections, ls: seq<HamsterListener>): (r: seq<seq<string>>)
    ensures |r| == |ls|
  {
    if |ls| == 0 then []
    else
      var l := ls[|ls| - 1];
      PromptLog(sections, ls[..|ls| - 1]) + [Prompted(ReconcileAll(sections, ls[..|ls| - 1]), l.shortName, l.configValues)]
  }

  /** Listener `i`'s entry is what it prompts for on the configuration the listeners before it left. */
  lemma {:induction false} PromptLogAt(sections: Sections, ls: seq<HamsterListener>)
    ensures forall i :: 0 <= i < |ls| ==>
      PromptLog(sections, ls)[i] == Prompted(ReconcileAll(sections, ls[..i]), ls[i].shortName, ls[i].configValues)
  {
    if |ls| > 0 {
      var front := ls[..|ls| - 1];
      PromptLogAt(sections, front);
      PrefixesOfFront(ls);
      forall i | 0 <= i < |ls|
        ensures PromptLog(sections, ls)[i] == Prompted(ReconcileAll(sections, ls[..i]), ls[i].shortName, ls[i].configValues)
      {
        if i < |front| {
          assert PromptLog(sections, ls)[i] == PromptLog(sections, front)[i];
          assert front[..i] == ls[..i] && front[i] == ls[i];
        }
      }
    }
  }

  lemma ReconcileAllStep(sections: Sections, ls: seq<HamsterListener>, i: nat)
    requires i < |ls|
    ensures ReconcileAll(sections, ls[..i + 1])
         == Reconcile(ReconcileAll(sections, ls[..i]), ls[i].shortName, ls[i].configValues, ls[i].setup)
    ensures PromptLog(sections, ls[..i + 1])
         == PromptLog(sections, ls[..i]) + [Prompted(ReconcileAll(sections, ls[..i]), ls[i].shortName, ls[i].configValues)]
  {
    assert ls[..i + 1][..i] == ls[..i];
  }

  predicate AllConfigured(sections: Sections, ls: seq<HamsterListener>) {
    forall l :: l in ls ==> Configured(sections, l.shortName, l.configValues)
  }

  /** Reconciling one listener never undoes what another's reconciliation established. */
  lemma ReconcileKeepsConfigured(sections: Sections, name: Option<string>, items: seq<ConfigItem>, setup: string -> string,
                                 otherName: Option<string>, otherItems: seq<ConfigItem>)
    requires Configured(sections, otherName, otherItems)
    ensures Configured(Reconcile(sections, name, items, setup), otherName, otherItems)
  {
  }

  /** After the configuration pass every registered listener has all its keys. */
  lemma {:induction false} ReconcileAllConfigures(sections: Sections, ls: seq<HamsterListener>)
    ensures AllConfigured(ReconcileAll(sections, ls), ls)
  {
    if |ls| > 0 {
      var front := ls[..|ls| - 1];
      var l := ls[|ls| - 1];
      ReconcileAllConfigures(sections, front);
      forall m | m in ls
        ensures Configured(ReconcileAll(sections, ls), m.shortName, m.configValues)
      {
        if m in front {
          ReconcileKeepsConfigured(ReconcileAll(sections, front), l.shortName, l.configValues, l.setup, m.shortName, m.configValues);
        } else {
          assert m == l;
        }
      }
    }
  }

  /** A configuration that already satisfies every listener is left alone, and nobody is prompted. */
  lemma {:induction false} ReconcileAllFixed(sections: Sections, ls: seq<HamsterListener>)
    requires AllConfigured(sections, ls)
    ensures ReconcileAll(sections, ls) == sections
    ensures forall i :: 0 <= i < |ls| ==> PromptLog(sections, ls)[i] == []
  {
    if |ls| > 0 {
      var front := ls[..|ls| - 1];
      var l := ls[|ls| - 1];
      assert AllConfigured(sections, front);
      ReconcileAllFixed(sections, front);
      AlreadyConfigured(sections, l.shortName, l.configValues, l.setup);
    }
  }

  /** Configuring again from what the first pass wrote prompts nobody and changes nothing. */
  lemma ConfigureIdempotent(sections: Sections, ls: seq<HamsterListener>)
    ensures ReconcileAll(ReconcileAll(sections, ls), ls) == ReconcileAll(sections, ls)
    ensures forall i :: 0 <= i < |ls| ==> PromptLog(ReconcileAll(sections, ls), ls)[i] == []
  {
    ReconcileAllConfigures(sections, ls);
    ReconcileAllFixed(ReconcileAll(sections, ls), ls);
  }

  // ---------------------------------------------------------------------------
  // What the notification trace contains

  /** A broadcast reaches exactly the registered listeners, with its own hook and fact. */
  lemma BroadcastHas(ls: seq<HamsterListener>, h: Hook, g: Fact, e: Event)
    ensures e in Broadcast(ls, h, g) <==> e.Notified? && e.hook == h && e.fact == g && e.listener in ls
  {
    var r := Broadcast(ls, h, g);
    if e in r {
      var i :| 0 <= i < |r| && r[i] == e;
      assert e.listener == ls[i];
    }
    if e.Notified? && e.hook == h && e.fact == g && e.listener in ls {
      var i :| 0 <= i < |ls| && ls[i] == e.listener;
      assert r[i] == e;
    }
  }

  /**
   * An iteration notifies listener `l` of hook `h` for fact `f` exactly when `l`
   * is registered, the tracker returned `f`, and `f`'s timestamp for `h` lies
   * in the window.
   */
  lemma {:induction false} NotifiedIff(ls: seq<HamsterListener>, facts: seq<Fact>, w: Window, h: Hook, l: HamsterListener, f: Fact)
    ensures Notified(h, l, f) in IterationEvents(ls, facts, w) <==> l in ls && f in facts && InWindow(Stamp(f, h), w)
  {
    if |facts| > 0 {
      var front := facts[..|facts| - 1];
      var g := facts[|facts| - 1];
      NotifiedIff(ls, front, w, h, l, f);
      SplitLast(facts);
      BroadcastHas(ls, FactStarted, g, Notified(h, l, f));
      BroadcastHas(ls, FactStopped, g, Notified(h, l, f));
    }
  }

  /** With no duplicate registrations, each registered listener gets a broadcast exactly once. */
  lemma {:induction false} BroadcastCount(ls: seq<HamsterListener>, h: Hook, g: Fact, e: Event)
    requires NoDuplicates(ls)
    ensures multiset(Broadcast(ls, h, g))[e] == if e in Broadcast(ls, h, g) then 1 else 0
  {
    if |ls| > 0 {
      var front := ls[..|ls| - 1];
      var last := ls[|ls| - 1];
      BroadcastCount(front, h, g, e);
      BroadcastHas(front, h, g, e);
      if e == Notified(h, last, g) {
        assert last !in front;
      }
    }
  }

  lemma FactEventsCount(ls: seq<HamsterListener>, g: Fact, w: Window, h: Hook, l: HamsterListener, f: Fact)
    requires NoDuplicates(ls) && l in ls
    ensures multiset(FactEvents(ls, g, w))[Notified(h, l, f)] == if g == f && InWindow(Stamp(f, h), w) then 1 else 0
  {
    var e := Notified(h, l, f);
    BroadcastCount(ls, FactStarted, g, e);
    BroadcastCount(ls, FactStopped, g, e);
    BroadcastHas(ls, FactStarted, g, e);
    BroadcastHas(ls, FactStopped, g, e);
  }

  /** Per iteration, a registered listener is notified once per copy of the fact whose timestamp is in the window. */
  lemma {:induction false} IterationCount(ls: seq<HamsterListener>, facts: seq<Fact>, w: Window, h: Hook, l: HamsterListener, f: Fact)
    requires NoDuplicates(ls) && l in ls
    ensures multiset(IterationEvents(ls, facts, w))[Notified(h, l, f)]
         == if InWindow(Stamp(f, h), w) then multiset(facts)[f] else 0
  {
    if |facts| > 0 {
      var front := facts[..|facts| - 1];
      var g := facts[|facts| - 1];
      var e := Notified(h, l, f);
      var before := IterationEvents(ls, front, w);
      var added := FactEvents(ls, g, w);
      IterationCount(ls, front, w, h, l, f);
      FactEventsCount(ls, g, w, h, l, f);
      SplitLast(facts);
      CountAppend(front, [g], f);
      CountAppend(before, added, e);
    }
  }

  lemma PrefixesOfFront<T>(s: seq<T>)
    requires |s| > 0
    ensures forall i :: 0 <= i < |s| ==> s[..|s| - 1][..i] == s[..i]
  {
  }

  lemma SplitLast<T>(s: seq<T>)
    requires |s| > 0
    ensures s == s[..|s| - 1] + [s[|s| - 1]]
  {
  }

  lemma CountAppend<T>(a: seq<T>, b: seq<T>, x: T)
    ensures multiset(a + b)[x] == multiset(a)[x] + multiset(b)[x]
  {
  }

  /** A fact's events notify registered listeners of that fact, for a hook whose timestamp is in the window. */
  lemma FactEventsSound(ls: seq<HamsterListener>, g: Fact, w: Window)
    ensures forall e :: e in FactEvents(ls, g, w) ==> e.Notified? && e.listener in ls && e.fact == g && InWindow(Stamp(g, e.hook), w)
  {
    forall e | e in FactEvents(ls, g, w)
      ensures e.Notified? && e.listener in ls && e.fact == g && InWindow(Stamp(g, e.hook), w)
    {
      BroadcastHas(ls, FactStarted, g, e);
      BroadcastHas(ls, FactStopped, g, e);
    }
  }

  /** Every call after the preparation pass notifies a registered listener. */
  lemma {:induction false} PollEventsNotify(ls: seq<HamsterListener>, polls: seq<Poll>, interval: int)
    ensures forall i :: 0 <= i < |PollEvents(ls, polls, interval)| ==>
      PollEvents(ls, polls, interval)[i].Notified? && PollEvents(ls, polls, interval)[i].listener in ls
  {
    if |polls| > 0 {
      var p := polls[|polls| - 1];
      var before := PollEvents(ls, polls[..|polls| - 1], interval);
      var added := IterationEvents(ls, p.facts, WindowAt(p.clock, interval));
      var all: seq<Event> := before + added;
      PollEventsNotify(ls, polls[..|polls| - 1], interval);
      forall i | |before| <= i < |all| ensures all[i].Notified? && all[i].listener in ls {
        assert all[i] == added[i - |before|];
        assert added[i - |before|] in added;
      }
    }
  }

  // ---------------------------------------------------------------------------
  // Windows: every transition in one window only

  /** The number of polls whose window contains `t`. */
  function Hits(polls: seq<Poll>, interval: int, t: Option<Micros>): nat {
    if |polls| == 0 then 0
    else
      var p := polls[|polls| - 1];
      Hits(polls[..|polls| - 1], interval, t) + (if InWindow(t, WindowAt(p.clock, interval)) then 1 else 0)
  }

  /** Each window starts where the one before ended. */
  predicate Contiguous(polls: seq<Poll>, interval: int) {
    forall i :: 0 < i < |polls| ==> WindowAt(polls[i].clock, interval).last == WindowAt(polls[i - 1].clock, interval).now
  }

  /** The copies of `f` the tracker returned in the polls whose window holds `f`'s timestamp for `h`. */
  function Occurrences(polls: seq<Poll>, interval: int, h: Hook, f: Fact): nat {
    if |polls| == 0 then 0
    else
      var p := polls[|polls| - 1];
      Occurrences(polls[..|polls| - 1], interval, h, f)
        + (if InWindow(Stamp(f, h), WindowAt(p.clock, interval)) then multiset(p.facts)[f] else 0)
  }

  /**
   * Over a run, a registered listener is notified of `h` for `f` once for every
   * copy of `f` returned by a poll whose window holds `f`'s timestamp for `h`.
   */
  lemma {:induction false} PollCount(ls: seq<HamsterListener>, polls: seq<Poll>, interval: int, h: Hook, l: HamsterListener, f: Fact)
    requires NoDuplicates(ls) && l in ls
    ensures multiset(PollEvents(ls, polls, interval))[Notified(h, l, f)] == Occurrences(polls, interval, h, f)
  {
    if |polls| > 0 {
      var p := polls[|polls| - 1];
      PollCount(ls, polls[..|polls| - 1], interval, h, l, f);
      IterationCount(ls, p.facts, WindowAt(p.clock, interval), h, l, f);
    }
  }

  /** When every poll whose window holds the timestamp returns `f` once, the copies are the windows hit. */
  lemma {:induction false} OccurrencesAreHits(polls: seq<Poll>, interval: int, h: Hook, f: Fact)
    requires forall i :: 0 <= i < |polls| && InWindow(Stamp(f, h), WindowAt(polls[i].clock, interval)) ==> multiset(polls[i].facts)[f] == 1
    ensures Occurrences(polls, interval, h, f) == Hits(polls, interval, Stamp(f, h))
  {
    if |polls| > 0 {
      var front := polls[..|polls| - 1];
      forall i | 0 <= i < |front| && InWindow(Stamp(f, h), WindowAt(front[i].clock, interval))
        ensures multiset(front[i].facts)[f] == 1
      {
        assert front[i] == polls[i];
      }
      OccurrencesAreHits(front, interval, h, f);
    }
  }

  /** With contiguous windows, a timestamp at or after the last window's end is in none of them. */
  lemma {:induction false} NoHitsAfter(polls: seq<Poll>, interval: int, t: Micros)
    requires interval >= 0 && |polls| > 0 && Contiguous(polls, interval)
    requires WindowAt(polls[|polls| - 1].clock, interval).now <= t
    ensures Hits(polls, interval, Some(t)) == 0
  {
    if |polls| > 1 {
      var front := polls[..|polls| - 1];
      assert Contiguous(front, interval);
      NoHitsAfter(front, interval, t);
    }
  }

  /**
   * With contiguous windows, a timestamp between the first window's start and
   * the last window's end lies in exactly one window: no gap, no double count.
   */
  lemma {:induction false} ExactlyOneWindow(polls: seq<Poll>, interval: int, t: Micros)
    requires interval >= 0 && |polls| > 0 && Contiguous(polls, interval)
    requires WindowAt(polls[0].clock, interval).last <= t < WindowAt(polls[|polls| - 1].clock, interval).now
    ensures Hits(polls, interval, Some(t)) == 1
  {
    if |polls| > 1 {
      var front := polls[..|polls| - 1];
      assert Contiguous(front, interval);
      var boundary := WindowAt(polls[|polls| - 2].clock, interval).now;
      if t < boundary {
        ExactlyOneWindow(front, interval, t);
      } else {
        NoHitsAfter(front, interval, t);
      }
    }
  }

  /**
   * End to end: with contiguous windows and a non-negative interval, a fact
   * whose timestamp for `h` lies in the polled span, returned once by the poll
   * whose window holds that timestamp, is reported to every registered
   * listener exactly once. Other polls may return it any number of times.
   */
  lemma ReportedOnce(ls: seq<HamsterListener>, polls: seq<Poll>, interval: int, h: Hook, l: HamsterListener, f: Fact)
    requires NoDuplicates(ls) && l in ls
    requires interval >= 0 && |polls| > 0 && Contiguous(polls, interval)
    requires forall i :: 0 <= i < |polls| && InWindow(Stamp(f, h), WindowAt(polls[i].clock, interval)) ==> multiset(polls[i].facts)[f] == 1
    requires Stamp(f, h).Some?
    requires WindowAt(polls[0].clock, interval).last <= Stamp(f, h).value < WindowAt(polls[|polls| - 1].clock, interval).now
    ensures multiset(RunTrace(ls, polls, interval))[Notified(h, l, f)] == 1
  {
    assert polls[..Completed(polls, interval)] == polls;
    PollCount(ls, polls, interval, h, l, f);
    OccurrencesAreHits(polls, interval, h, f);
    ExactlyOneWindow(polls, interval, Stamp(f, h).value);
    assert Notified(h, l, f) !in PrepareEvents(ls);
  }

  /**
   * A fact stopped half-way through the second of two one-second windows is
   * reported once, although the first poll did not return it yet.
   */
  lemma StoppedBetweenPolls(ls: seq<HamsterListener>, l: HamsterListener, running: Fact, stopped: Fact)
    requires NoDuplicates(ls) && l in ls
    requires stopped.endTime == Some(5 * MicrosPerSecond / 2)
    ensures multiset(RunTrace(ls, [Poll(2 * MicrosPerSecond, [running]), Poll(3 * MicrosPerSecond, [stopped])], 1))
              [Notified(FactStopped, l, stopped)] == 1
  {
    var polls := [Poll(2 * MicrosPerSecond, [running]), Poll(3 * MicrosPerSecond, [stopped])];
    assert WindowAt(polls[0].clock, 1) == Window(MicrosPerSecond, 2 * MicrosPerSecond);
    assert WindowAt(polls[1].clock, 1) == Window(2 * MicrosPerSecond, 3 * MicrosPerSecond);
    assert multiset(polls[1].facts)[stopped] == 1;
    ReportedOnce(ls, polls, 1, FactStopped, l, stopped);
  }

  /** A transition whose timestamp falls between two windows is never reported. */
  lemma GapLosesTransition(ls: seq<HamsterListener>, polls: seq<Poll>, interval: int, h: Hook, f: Fact)
    requires forall i :: 0 <= i < |polls| ==> !InWindow(Stamp(f, h), WindowAt(polls[i].clock, interval))
    ensures forall l :: Notified(h, l, f) !in RunTrace(ls, polls, interval)
  {
    var done := polls[..Completed(polls, interval)];
    PollEventsNotify(ls, done, interval);
    forall l ensures Notified(h, l, f) !in PollEvents(ls, done, interval) {
      NotMissedNotified(ls, done, interval, h, l, f);
    }
  }

  lemma {:induction false} NotMissedNotified(ls: seq<HamsterListener>, polls: seq<Poll>, interval: int, h: Hook, l: HamsterListener, f: Fact)
    requires forall i :: 0 <= i < |polls| ==> !InWindow(Stamp(f, h), WindowAt(polls[i].clock, interval))
    ensures Notified(h, l, f) !in PollEvents(ls, polls, interval)
  {
    if |polls| > 0 {
      var p := polls[|polls| - 1];
      NotMissedNotified(ls, polls[..|polls| - 1], interval, h, l, f);
      NotifiedIff(ls, p.facts, WindowAt(p.clock, interval), h, l, f);
    }
  }
}
