/** The per-IP rate limiter. It stores a count and a last-seen time per visitor; what it decides is
    stated over the whole history of requests. Times are integers in the unit of the window. */
module RateLimiter {

  datatype Visitor = Visitor(count: nat, lastSeen: int)

  type Visitors = map<string, Visitor>

  /** A request reads the clock twice under the lock: to test the window, then to record it. */
  datatype Event =
    | Request(ip: string, checkedAt: int, seenAt: int)
    | SetLimit(limit: int)
    | Evict(ip: string, at: int)

  datatype State = State(visitors: Visitors, limit: int)

  predicate Stale(v: Visitor, now: int, window: nat) { now - v.lastSeen > window }

  // ---------- the limiter, one event at a time ----------

  function Next(s: State, e: Event, window: nat): State {
    match e
    case Request(ip, checkedAt, seenAt) =>
      if ip !in s.visitors || Stale(s.visitors[ip], checkedAt, window)
      then s.(visitors := s.visitors[ip := Visitor(1, seenAt)])
      else s.(visitors := s.visitors[ip := Visitor(s.visitors[ip].count + 1, seenAt)])
    case SetLimit(limit) => s.(limit := limit)
    case Evict(ip, at) =>
      if ip in s.visitors && Stale(s.visitors[ip], at, window) then s.(visitors := s.visitors - {ip}) else s
  }

  /** Whether a request is let through. */
  predicate Accepts(s: State, ip: string, checkedAt: int, window: nat) {
    || ip !in s.visitors
    || Stale(s.visitors[ip], checkedAt, window)
    || s.visitors[ip].count + 1 <= s.limit
  }

  function After(s: State, events: seq<Event>, window: nat): State {
    if events == [] then s
    else Next(After(s, events[..|events| - 1], window), events[|events| - 1], window)
  }

  function Run(limit: int, events: seq<Event>, window: nat): State {
    After(State(map[], limit), events, window)
  }

  /** The clock never runs backwards. */
  function Begin(e: Event, otherwise: int): int {
    match e
    case Request(_, t, _) => t
    case SetLimit(_) => otherwise
    case Evict(_, t) => t
  }

  function End(e: Event, otherwise: int): int {
    if e.Request? then e.seenAt else Begin(e, otherwise)
  }

  function Clock(start: int, events: seq<Event>): int {
    if events == [] then start
    else End(events[|events| - 1], Clock(start, events[..|events| - 1]))
  }

  predicate Monotone(start: int, events: seq<Event>) {
    events != [] ==>
      var init, e := events[..|events| - 1], events[|events| - 1];
      var now := Clock(start, init);
      && Monotone(start, init)
      && now <= Begin(e, now)
      && (e.Request? ==> e.checkedAt <= e.seenAt)
  }

  // ---------- the reference: decisions from the history of one IP ----------

  /** A request as its own IP sees it, with the limit then in force. */
  datatype Visit = Visit(checkedAt: int, seenAt: int, limit: int)

  function HistoryOf(limit: int, events: seq<Event>, ip: string): seq<Visit> {
    if events == [] then []
    else
      var init, e := events[..|events| - 1], events[|events| - 1];
      var before := HistoryOf(limit, init, ip);
      if e.Request? && e.ip == ip then before + [Visit(e.checkedAt, e.seenAt, LimitAfter(limit, init))] else before
  }

  function LimitAfter(limit: int, events: seq<Event>): int {
    if events == [] then limit
    else
      var e := events[|events| - 1];
      if e.SetLimit? then e.limit else LimitAfter(limit, events[..|events| - 1])
  }

  /** The number of requests since the last pause longer than the window, the last one included. */
  function Streak(h: seq<Visit>, window: nat): (k: nat)
    requires h != []
    ensures 1 <= k <= |h|
  {
    var n := |h|;
    if n == 1 || h[n - 1].checkedAt - h[n - 2].seenAt > window then 1 else 1 + Streak(h[..n - 1], window)
  }

  /** The last request of a history is accepted when it opens a streak or the streak does not
      exceed the limit. */
  predicate AcceptsLast(h: seq<Visit>, window: nat)
    requires h != []
  {
    Streak(h, window) == 1 || Streak(h, window) <= h[|h| - 1].limit
  }

  /** What the limiter knows of an IP is its streak and its last request; when it knows nothing,
      the IP's last request is longer ago than the window. */
  ghost predicate Remembers(s: State, h: seq<Visit>, ip: string, now: int, window: nat) {
    && (ip in s.visitors ==> h != [] && s.visitors[ip] == Visitor(Streak(h, window), h[|h| - 1].seenAt))
    && (ip !in s.visitors && h != [] ==> now - h[|h| - 1].seenAt > window)
    && (h != [] ==> h[|h| - 1].seenAt <= now)
  }

  lemma {:induction false} StateIsHistory(limit: int, start: int, events: seq<Event>, ip: string, window: nat)
    requires Monotone(start, events)
    ensures Run(limit, events, window).limit == LimitAfter(limit, events)
    ensures Remembers(Run(limit, events, window), HistoryOf(limit, events, ip), ip, Clock(start, events), window)
    decreases |events|
  {
    if events != [] {
      var init, e := events[..|events| - 1], events[|events| - 1];
      StateIsHistory(limit, start, init, ip, window);
      if e.Request? && e.ip == ip {
        var h := HistoryOf(limit, events, ip);
        assert h[..|h| - 1] == HistoryOf(limit, init, ip);
      }
    }
  }

  /** Every decision of the limiter, whatever other IPs do and whenever visitors are evicted, is the
      one read off the IP's own history. */
  lemma DecisionIsHistory(limit: int, start: int, events: seq<Event>, ip: string, checkedAt: int, seenAt: int,
                          window: nat)
    requires Monotone(start, events + [Request(ip, checkedAt, seenAt)])
    ensures Accepts(Run(limit, events, window), ip, checkedAt, window) <==>
            AcceptsLast(HistoryOf(limit, events + [Request(ip, checkedAt, seenAt)], ip), window)
  {
    var all := events + [Request(ip, checkedAt, seenAt)];
    assert all[..|all| - 1] == events;
    StateIsHistory(limit, start, events, ip, window);
    var h := HistoryOf(limit, all, ip);
    assert h[..|h| - 1] == HistoryOf(limit, events, ip);
  }

  // ---------- eviction and other IPs do not matter ----------

  function Filter(events: seq<Event>, keep: Event -> bool): seq<Event> {
    if events == [] then []
    else
      var e := events[|events| - 1];
      var before := Filter(events[..|events| - 1], keep);
      if keep(e) then before + [e] else before
  }

  /** The events that can matter to an IP: its own requests and the limits. */
  predicate Concerns(e: Event, ip: string) {
    e.SetLimit? || (e.Request? && e.ip == ip)
  }

  function OwnEvents(events: seq<Event>, ip: string): seq<Event> {
    Filter(events, e => Concerns(e, ip))
  }

  function WithoutEvictions(events: seq<Event>): seq<Event> {
    Filter(events, (e: Event) => !e.Evict?)
  }

  lemma MonotoneAppend(start: int, events: seq<Event>, e: Event)
    ensures Clock(start, events + [e]) == End(e, Clock(start, events))
    ensures Monotone(start, events + [e]) <==>
            Monotone(start, events) && Clock(start, events) <= Begin(e, Clock(start, events))
            && (e.Request? ==> e.checkedAt <= e.seenAt)
  {
    assert (events + [e])[..|events|] == events;
  }

  lemma {:induction false} FilterClock(start: int, events: seq<Event>, keep: Event -> bool)
    requires Monotone(start, events)
    ensures Monotone(start, Filter(events, keep)) && Clock(start, Filter(events, keep)) <= Clock(start, events)
    decreases |events|
  {
    if events != [] {
      var init, e := events[..|events| - 1], events[|events| - 1];
      FilterClock(start, init, keep);
      MonotoneAppend(start, Filter(init, keep), e);
    }
  }

  lemma {:induction false} FilterHistory(limit: int, events: seq<Event>, keep: Event -> bool, ip: string)
    requires forall e :: Concerns(e, ip) ==> keep(e)
    ensures HistoryOf(limit, Filter(events, keep), ip) == HistoryOf(limit, events, ip)
    ensures LimitAfter(limit, Filter(events, keep)) == LimitAfter(limit, events)
    decreases |events|
  {
    if events != [] {
      var init, e := events[..|events| - 1], events[|events| - 1];
      FilterHistory(limit, init, keep, ip);
      assert Concerns(e, ip) ==> keep(e);
      var kept := Filter(init, keep) + [e];
      assert kept[..|kept| - 1] == Filter(init, keep);
    }
  }

  /** Whatever is left out that does not concern an IP, its requests are decided alike. */
  lemma FilterIsUnobservable(limit: int, start: int, events: seq<Event>, keep: Event -> bool, ip: string,
                             checkedAt: int, seenAt: int, window: nat)
    requires Monotone(start, events + [Request(ip, checkedAt, seenAt)])
    requires forall e :: Concerns(e, ip) ==> keep(e)
    ensures Accepts(Run(limit, events, window), ip, checkedAt, window) <==>
            Accepts(Run(limit, Filter(events, keep), window), ip, checkedAt, window)
  {
    var r := Request(ip, checkedAt, seenAt);
    var all := events + [r];
    assert all[..|all| - 1] == events;
    assert Concerns(r, ip) ==> keep(r);
    FilterClock(start, all, keep);
    FilterHistory(limit, all, keep, ip);
    DecisionIsHistory(limit, start, events, ip, checkedAt, seenAt, window);
    DecisionIsHistory(limit, start, Filter(events, keep), ip, checkedAt, seenAt, window);
  }

  /** Eviction is unobservable: at every point, a limiter that never evicts decides the same. */
  lemma EvictionIsUnobservable(limit: int, start: int, events: seq<Event>, ip: string, checkedAt: int, seenAt: int,
                               window: nat)
    requires Monotone(start, events + [Request(ip, checkedAt, seenAt)])
    ensures Accepts(Run(limit, events, window), ip, checkedAt, window) <==>
            Accepts(Run(limit, WithoutEvictions(events), window), ip, checkedAt, window)
  {
    FilterIsUnobservable(limit, start, events, (e: Event) => !e.Evict?, ip, checkedAt, seenAt, window);
  }

  /** The decisions for one IP depend on nothing but its own requests and the limits. */
  lemma IpsAreIndependent(limit: int, start: int, events: seq<Event>, ip: string, checkedAt: int, seenAt: int,
                          window: nat)
    requires Monotone(start, events + [Request(ip, checkedAt, seenAt)])
    ensures Accepts(Run(limit, events, window), ip, checkedAt, window) <==>
            Accepts(Run(limit, OwnEvents(events, ip), window), ip, checkedAt, window)
  {
    FilterIsUnobservable(limit, start, events, e => Concerns(e, ip), ip, checkedAt, seenAt, window);
  }

  // ---------- the sliding-window bound ----------

  predicate Ordered(h: seq<Visit>) {
    && (forall i :: 0 <= i < |h| ==> h[i].checkedAt <= h[i].seenAt)
    && (forall i, j :: 0 <= i < j < |h| ==> h[i].seenAt <= h[j].checkedAt)
  }

  lemma {:induction false} HistoryIsOrdered(limit: int, start: int, events: seq<Event>, ip: string)
    requires Monotone(start, events)
    ensures Ordered(HistoryOf(limit, events, ip))
    ensures forall i :: 0 <= i < |HistoryOf(limit, events, ip)| ==>
              HistoryOf(limit, events, ip)[i].seenAt <= Clock(start, events)
    decreases |events|
  {
    if events != [] {
      HistoryIsOrdered(limit, start, events[..|events| - 1], ip);
    }
  }

  /** The requests accepted within the closed interval [from, from + window]. */
  ghost function AcceptedIn(h: seq<Visit>, from: int, window: nat): set<nat> {
    set i: nat | i < |h| && from <= h[i].seenAt <= from + window && AcceptsLast(h[..i + 1], window)
  }

  /** Two requests no further apart than the window belong to the same streak. */
  lemma {:induction false} SameStreak(h: seq<Visit>, i: nat, j: nat, window: nat)
    requires Ordered(h) && i <= j < |h| && h[j].seenAt - h[i].seenAt <= window
    ensures Streak(h[..j + 1], window) == Streak(h[..i + 1], window) + (j - i)
    decreases j
  {
    if i < j {
      SameStreak(h, i, j - 1, window);
      assert h[..j + 1][..j] == h[..j];
      assert h[j].checkedAt - h[j - 1].seenAt <= window;
    }
  }

  lemma {:induction false} BoundedSet(s: set<nat>, lo: nat, size: nat)
    requires forall i :: i in s ==> lo <= i < lo + size
    ensures |s| <= size
    decreases size
  {
    if size > 0 {
      var top := lo + size - 1;
      BoundedSet(s - {top}, lo, size - 1);
      assert s <= (s - {top}) + {top};
      assert |s| <= |s - {top}| + 1 by {
        if top in s { assert s == (s - {top}) + {top}; } else { assert s - {top} == s; }
      }
    } else {
      assert s == {};
    }
  }

  /** The requests accepted in the interval are numbered consecutively within one streak. */
  lemma NumberedInStreak(h: seq<Visit>, from: int, bound: nat, window: nat, some: nat, i: nat)
    requires Ordered(h)
    requires forall k :: 0 <= k < |h| && from <= h[k].seenAt <= from + window ==> h[k].limit <= bound
    requires bound >= 1 && some in AcceptedIn(h, from, window) && i in AcceptedIn(h, from, window)
    ensures var first := some + 1 - Streak(h[..some + 1], window); first <= i < first + bound
  {
    if i <= some { SameStreak(h, i, some, window); } else { SameStreak(h, some, i, window); }
    assert h[..i + 1][i] == h[i];
  }

  /** In any closed interval as long as the window, at most `bound` requests of an IP are accepted,
      where `bound` is any number, at least 1, that no limit in force in the interval exceeds. */
  lemma SlidingWindowBound(h: seq<Visit>, from: int, bound: nat, window: nat)
    requires Ordered(h) && bound >= 1
    requires forall i :: 0 <= i < |h| && from <= h[i].seenAt <= from + window ==> h[i].limit <= bound
    ensures |AcceptedIn(h, from, window)| <= bound
  {
    var s := AcceptedIn(h, from, window);
    if s != {} {
      var some :| some in s;
      var first := some + 1 - Streak(h[..some + 1], window);
      forall i | i in s ensures first <= i < first + bound {
        NumberedInStreak(h, from, bound, window, some, i);
      }
      BoundedSet(s, first, bound);
    }
  }

  /** The same over a whole run of the limiter, with its other clients, changes of the limit and
      evictions. */
  lemma LimiterBound(limit: int, start: int, events: seq<Event>, ip: string, from: int, bound: nat, window: nat)
    requires Monotone(start, events) && bound >= 1
    requires var h := HistoryOf(limit, events, ip);
             forall i :: 0 <= i < |h| && from <= h[i].seenAt <= from + window ==> h[i].limit <= bound
    ensures |AcceptedIn(HistoryOf(limit, events, ip), from, window)| <= bound
  {
    HistoryIsOrdered(limit, start, events, ip);
    SlidingWindowBound(HistoryOf(limit, events, ip), from, bound, window);
  }

  // ---------- when a refusal is justified ----------

  /** Whether request i is let through. */
  predicate AcceptedAt(h: seq<Visit>, i: nat, window: nat)
    requires i < |h|
  {
    AcceptsLast(h[..i + 1], window)
  }

  /** The request that opened the streak of request i. */
  function Opener(h: seq<Visit>, i: nat, window: nat): (o: nat)
    requires i < |h|
    ensures o <= i
  {
    i + 1 - Streak(h[..i + 1], window)
  }

  /** The requests of the current streak are numbered from its opener on; those before it came more
      than a window earlier. */
  lemma {:induction false} StreakIsNumbered(h: seq<Visit>, i: nat, j: nat, window: nat)
    requires Ordered(h) && j <= i < |h|
    ensures var o := Opener(h, i, window);
            && (o <= j ==> Streak(h[..j + 1], window) == j - o + 1)
            && (j < o ==> h[j].seenAt + window < h[o].seenAt)
    decreases i - j
  {
    if j < i {
      assert h[..i + 1][..i] == h[..i];
      if Streak(h[..i + 1], window) == 1 {
        assert h[j].seenAt <= h[i - 1].seenAt by { if j < i - 1 { assert h[j].seenAt <= h[i - 1].checkedAt; } }
      } else {
        StreakIsNumbered(h, i - 1, j, window);
      }
    }
  }

  /** Which requests of the current streak are accepted, under a limit that does not change. */
  lemma AcceptedInStreak(h: seq<Visit>, j: nat, limit: int, window: nat)
    requires Ordered(h) && h != [] && j < |h| && limit >= 1
    requires forall i :: 0 <= i < |h| ==> h[i].limit == limit
    requires Opener(h, |h| - 1, window) <= j
    ensures AcceptsLast(h[..j + 1], window) <==> j < Opener(h, |h| - 1, window) + limit
  {
    StreakIsNumbered(h, |h| - 1, j, window);
    assert h[..j + 1][j] == h[j];
  }

  lemma {:induction false} Interval(s: set<nat>, lo: nat, size: nat)
    requires forall i :: lo <= i < lo + size ==> i in s
    ensures |s| >= size
    decreases size
  {
    if size > 0 {
      Interval(s - {lo}, lo + 1, size - 1);
    }
  }

  /** What is accepted within a window before the last request belongs to its streak. */
  lemma AcceptedFromOpener(h: seq<Visit>, i: nat, limit: int, window: nat)
    requires Ordered(h) && h != [] && limit >= 1 && (forall k :: 0 <= k < |h| ==> h[k].limit == limit)
    requires i in AcceptedIn(h, h[|h| - 1].seenAt - window, window)
    ensures var o := Opener(h, |h| - 1, window); o <= i < o + limit
  {
    var n, o := |h| - 1, Opener(h, |h| - 1, window);
    StreakIsNumbered(h, n, i, window);
    SeenInOrder(h, o, n);
    AcceptedInStreak(h, i, limit, window);
  }

  lemma SeenInOrder(h: seq<Visit>, i: nat, j: nat)
    requires Ordered(h) && i <= j < |h|
    ensures h[i].seenAt <= h[j].seenAt
  {
    if i < j {
      assert h[i].seenAt <= h[j].checkedAt;
    }
  }

  lemma WindowIsFull(h: seq<Visit>, limit: int, window: nat)
    requires Ordered(h) && h != [] && limit >= 1 && (forall k :: 0 <= k < |h| ==> h[k].limit == limit)
    requires !AcceptsLast(h, window)
    requires h[Opener(h, |h| - 1, window)].seenAt >= h[|h| - 1].seenAt - window
    ensures |AcceptedIn(h, h[|h| - 1].seenAt - window, window)| >= limit
  {
    var n, o := |h| - 1, Opener(h, |h| - 1, window);
    var s := AcceptedIn(h, h[n].seenAt - window, window);
    assert h[..n + 1] == h;
    forall i | o <= i < o + limit ensures i in s {
      AcceptedInStreak(h, i, limit, window);
      SeenInOrder(h, o, i);
      SeenInOrder(h, i, n);
    }
    Interval(s, o, limit);
  }

  lemma WindowIsNotFull(h: seq<Visit>, limit: int, window: nat)
    requires Ordered(h) && h != [] && limit >= 1 && (forall k :: 0 <= k < |h| ==> h[k].limit == limit)
    requires h[Opener(h, |h| - 1, window)].seenAt < h[|h| - 1].seenAt - window
    ensures |AcceptedIn(h, h[|h| - 1].seenAt - window, window)| < limit
  {
    var o := Opener(h, |h| - 1, window);
    var s := AcceptedIn(h, h[|h| - 1].seenAt - window, window);
    forall i | i in s ensures o + 1 <= i < o + 1 + (limit - 1) {
      AcceptedFromOpener(h, i, limit, window);
    }
    BoundedSet(s, o + 1, limit - 1);
  }

  /** A refusal is justified, that is, the window before the refused request holds `limit` accepted
      ones, if and only if the streak of the request began within that window. */
  lemma RefusalIsJustifiedIff(h: seq<Visit>, limit: int, window: nat)
    requires Ordered(h) && h != [] && limit >= 1 && (forall k :: 0 <= k < |h| ==> h[k].limit == limit)
    requires !AcceptsLast(h, window)
    ensures |AcceptedIn(h, h[|h| - 1].seenAt - window, window)| >= limit <==>
            h[|h| - Streak(h, window)].seenAt >= h[|h| - 1].seenAt - window
  {
    assert h[..|h|] == h;
    if h[|h| - Streak(h, window)].seenAt >= h[|h| - 1].seenAt - window {
      WindowIsFull(h, limit, window);
    } else {
      WindowIsNotFull(h, limit, window);
    }
  }

  /** After a refusal, and as long as the limit is not raised above what it was then, the next
      accepted request is the next one that follows a pause longer than the window, however slowly
      the client asks. */
  lemma NextAcceptedFollowsPause(h: seq<Visit>, i: nat, j: nat, window: nat)
    requires Ordered(h) && i < j < |h|
    requires forall k :: i <= k < j ==> !AcceptedAt(h, k, window)
    requires h[j].limit <= h[i].limit
    ensures AcceptedAt(h, j, window) <==> h[j].checkedAt - h[j - 1].seenAt > window
  {
    RefusedAlong(h, i, j - 1, window);
    StreakAt(h, j, window);
    assert !AcceptedAt(h, i, window) && h[..i + 1][i] == h[i] && h[..j + 1][j] == h[j];
  }

  /** A streak ends with a pause and grows otherwise. */
  lemma StreakAt(h: seq<Visit>, j: nat, window: nat)
    requires 0 < j < |h|
    ensures Streak(h[..j + 1], window) ==
            if h[j].checkedAt - h[j - 1].seenAt > window then 1 else 1 + Streak(h[..j], window)
  {
    assert h[..j + 1][..j] == h[..j];
  }

  lemma {:induction false} RefusedAlong(h: seq<Visit>, i: nat, j: nat, window: nat)
    requires i <= j < |h|
    requires forall k :: i <= k <= j ==> !AcceptedAt(h, k, window)
    ensures Streak(h[..j + 1], window) == Streak(h[..i + 1], window) + (j - i)
    decreases j
  {
    if i < j {
      RefusedAlong(h, i, j - 1, window);
      StreakAt(h, j, window);
      assert !AcceptedAt(h, j, window);
    }
  }

  /** A client that never pauses longer than the window has one streak, all its requests, so each
      but the first is let through exactly while their number does not exceed the limit in force. */
  lemma {:induction false} SteadyClientIsLockedOut(h: seq<Visit>, window: nat)
    requires h != []
    requires forall i :: 1 <= i < |h| ==> h[i].checkedAt - h[i - 1].seenAt <= window
    ensures Streak(h, window) == |h|
    ensures AcceptsLast(h, window) <==> |h| == 1 || |h| <= h[|h| - 1].limit
    decreases |h|
  {
    if |h| > 1 {
      SteadyClientIsLockedOut(h[..|h| - 1], window);
    }
  }

  /** A refusal that is not justified: with a limit of 2 a minute, the third of three requests 50
      seconds apart is refused, and the minute before it holds one accepted request. */
  lemma RefusedBelowTheLimit()
    ensures var h := [Visit(0, 0, 2), Visit(50, 50, 2), Visit(100, 100, 2)];
            && Ordered(h) && !AcceptsLast(h, 60)
            && |AcceptedIn(h, 40, 60)| == 1
  {
    var h := [Visit(0, 0, 2), Visit(50, 50, 2), Visit(100, 100, 2)];
    SteadyClientIsLockedOut(h, 60);
    SteadyClientIsLockedOut(h[..2], 60);
    assert h[..3] == h && h[..1 + 1] == h[..2];
    assert AcceptedIn(h, 40, 60) == {1};
  }

  // ---------- the object itself ----------

  class Limiter {
    var visitors: Visitors
    var limit: int
    const window: nat

    constructor (limit: int, window: nat)
      ensures View() == Run(limit, [], window) && this.window == window
    {
      visitors := map[];
      this.limit := limit;
      this.window := window;
    }

    function View(): State
      reads this
    {
      State(visitors, limit)
    }

    method ChangeLimit(limit: int)
      modifies this
      ensures View() == Next(old(View()), SetLimit(limit), window)
    {
      this.limit := limit;
    }

    /** The critical section of Handler; `checkedAt` and `seenAt` are its two clock readings. */
    method Handle(ip: string, checkedAt: int, seenAt: int) returns (accepted: bool)
      modifies this
      ensures accepted == Accepts(old(View()), ip, checkedAt, window)
      ensures View() == Next(old(View()), Request(ip, checkedAt, seenAt), window)
    {
      if ip !in visitors || checkedAt - visitors[ip].lastSeen > window {
        visitors := visitors[ip := Visitor(1, seenAt)];
        return true;
      }
      var v := visitors[ip];
      v := v.(count := v.count + 1);
      v := v.(lastSeen := seenAt);
      visitors := visitors[ip := v];
      if v.count > limit {
        return false;
      }
      return true;
    }

    /** One sweep of cleanup: it visits every entry of the map once, in some order, and reads the
        clock at each. It does what the same evictions do one by one. */
    method Sweep(order: seq<string>, times: seq<int>)
      requires |times| == |order| && Distinct(order)
      requires forall ip :: ip in visitors <==> ip in order
      modifies this
      ensures View() == After(old(View()), Evictions(order, times), window)
      ensures forall i :: 0 <= i < |order| ==>
        (order[i] in visitors <==> !Stale(old(visitors)[order[i]], times[i], window))
      ensures forall ip :: ip in visitors ==> ip in old(visitors) && visitors[ip] == old(visitors)[ip]
    {
      ghost var before := View();
      for i := 0 to |order|
        invariant View() == After(before, Evictions(order[..i], times[..i]), window)
      {
        var ip := order[i];
        EvictNext(before, order, times, i, window);
        if times[i] - visitors[ip].lastSeen > window {
          visitors := visitors - {ip};
        }
      }
      SweepEnds(before, View(), order, times, window);
    }
  }

  /** What a complete sweep leaves. */
  lemma SweepEnds(s: State, t: State, order: seq<string>, times: seq<int>, window: nat)
    requires |times| == |order| && Distinct(order)
    requires forall ip :: ip in order ==> ip in s.visitors
    requires t == After(s, Evictions(order[..|order|], times[..|order|]), window)
    ensures t == After(s, Evictions(order, times), window)
    ensures forall i :: 0 <= i < |order| ==>
      (order[i] in t.visitors <==> !Stale(s.visitors[order[i]], times[i], window))
    ensures forall ip :: ip in t.visitors ==> ip in s.visitors && t.visitors[ip] == s.visitors[ip]
  {
    assert order[..|order|] == order && times[..|order|] == times;
    EvictionsKeep(s, order, times, window);
    assert forall i :: 0 <= i < |order| ==> order[i] in order;
  }

  predicate Distinct(order: seq<string>) {
    forall i, j :: 0 <= i < j < |order| ==> order[i] != order[j]
  }

  /** The next visitor of a sweep is still there, unchanged. */
  lemma EvictNext(s: State, order: seq<string>, times: seq<int>, i: nat, window: nat)
    requires i < |order| == |times| && Distinct(order)
    requires forall ip :: ip in order ==> ip in s.visitors
    ensures var t, ip := After(s, Evictions(order[..i], times[..i]), window), order[i];
            && ip in t.visitors && t.visitors[ip] == s.visitors[ip]
            && After(s, Evictions(order[..i + 1], times[..i + 1]), window) == Next(t, Evict(ip, times[i]), window)
  {
    EvictionsKeep(s, order[..i], times[..i], window);
    assert order[i] in order && order[i] !in order[..i];
    assert order[..i + 1][..i] == order[..i] && times[..i + 1][..i] == times[..i];
    LastEviction(s, order[..i + 1], times[..i + 1], window);
  }

  /** `t` is `s` without the stale visitors among those in `order`. */
  ghost predicate Swept(s: State, t: State, order: seq<string>, times: seq<int>, window: nat)
    requires |times| == |order|
  {
    && t.limit == s.limit
    && (forall i :: 0 <= i < |order| && order[i] in s.visitors ==>
          (order[i] in t.visitors <==> !Stale(s.visitors[order[i]], times[i], window)))
    && (forall ip :: ip in s.visitors && ip !in order ==> ip in t.visitors)
    && (forall ip :: ip in t.visitors ==> ip in s.visitors && t.visitors[ip] == s.visitors[ip])
  }

  lemma SweepOne(s: State, t: State, order: seq<string>, times: seq<int>, window: nat)
    requires order != [] && |times| == |order| && Distinct(order)
    requires forall ip :: ip in order ==> ip in s.visitors
    requires var n := |order| - 1; Swept(s, t, order[..n], times[..n], window)
    ensures var n := |order| - 1; Swept(s, Next(t, Evict(order[n], times[n]), window), order, times, window)
  {
    var n := |order| - 1;
    var ip, t' := order[n], Next(t, Evict(order[n], times[n]), window);
    assert ip in order && ip !in order[..n];
    assert forall x :: x in order <==> x in order[..n] || x == ip;
    forall i | 0 <= i < |order|
      ensures order[i] in t'.visitors <==> !Stale(s.visitors[order[i]], times[i], window)
    {
      if i < n {
        assert order[..n][i] == order[i] && order[i] != ip;
      }
    }
  }

  lemma LastEviction(s: State, order: seq<string>, times: seq<int>, window: nat)
    requires order != [] && |times| == |order|
    ensures var n := |order| - 1;
            var before := After(s, Evictions(order[..n], times[..n]), window);
            After(s, Evictions(order, times), window) == Next(before, Evict(order[n], times[n]), window)
  {
    var n := |order| - 1;
    AfterAppend(s, Evictions(order[..n], times[..n]), Evict(order[n], times[n]), window);
  }

  /** A sequence of evictions removes the stale visitors among those it names and nothing else. */
  lemma {:induction false} EvictionsKeep(s: State, order: seq<string>, times: seq<int>, window: nat)
    requires |times| == |order| && Distinct(order)
    requires forall ip :: ip in order ==> ip in s.visitors
    ensures Swept(s, After(s, Evictions(order, times), window), order, times, window)
    decreases |order|
  {
    if order != [] {
      var n := |order| - 1;
      EvictionsKeep(s, order[..n], times[..n], window);
      LastEviction(s, order, times, window);
      SweepOne(s, After(s, Evictions(order[..n], times[..n]), window), order, times, window);
    }
  }

  function Evictions(order: seq<string>, times: seq<int>): seq<Event>
    requires |times| == |order|
  {
    if order == [] then []
    else
      var n := |order| - 1;
      Evictions(order[..n], times[..n]) + [Evict(order[n], times[n])]
  }

  lemma AfterAppend(s: State, events: seq<Event>, e: Event, window: nat)
    ensures After(s, events + [e], window) == Next(After(s, events, window), e, window)
  {
    assert (events + [e])[..|events|] == events;
  }
}
