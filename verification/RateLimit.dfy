/** Fixed-window rate limiting, and what it guarantees over whole runs. */
module RateLimit {
  import opened Prelude
  import opened Tree

  datatype Window = Window(started: Time, count: nat)

  type Windows = map<string, Window>

  // ----- the limiter on values

  datatype Limits = Limits(limit: int, window: nat) {
    predicate Enabled() { limit > 0 }

    predicate RolledOver(w: Window, now: Time) { now as int - w.started as int >= window }

    predicate IsLimited(ws: Windows, key: string, now: Time) {
      Enabled() && key in ws && !RolledOver(ws[key], now) && ws[key].count >= limit
    }

    function Record(ws: Windows, key: string, now: Time): Windows {
      if !Enabled() then ws
      else if key !in ws || RolledOver(ws[key], now) then ws[key := Window(now, 1)]
      else ws[key := ws[key].(count := ws[key].count + 1)]
    }

    function RetryAfter(ws: Windows, key: string, now: Time): nat {
      if !IsLimited(ws, key, now) then 0 else Max(ws[key].started + window - now, 0)
    }

    function Evict(ws: Windows, now: Time): Windows {
      map key | key in ws && !RolledOver(ws[key], now) :: ws[key]
    }
  }

  // ----- what the windows stand for

  /** One recorded event, with no mention of windows. */
  datatype Sighting = Sighting(key: string, at: Time)

  /** When the key's latest window opened: at its first event, and again at each event a window length or more after that. */
  function Opening(events: seq<Sighting>, key: string, window: nat): Option<Time> {
    if events == [] then None
    else
      var e, before := events[|events| - 1], Opening(events[..|events| - 1], key, window);
      if e.key == key && (before.None? || e.at >= before.value + window) then Some(e.at) else before
  }

  function CountSince(events: seq<Sighting>, key: string, start: Time): nat {
    if events == [] then 0
    else
      var e := events[|events| - 1];
      CountSince(events[..|events| - 1], key, start) + if e.key == key && e.at >= start then 1 else 0
  }

  /** `limit` events of the key were recorded since its latest window opened, less than a window length ago. */
  predicate Exhausted(l: Limits, events: seq<Sighting>, key: string, now: Time) {
    && l.Enabled()
    && var opening := Opening(events, key, l.window);
       opening.Some? && now < opening.value + l.window && CountSince(events, key, opening.value) >= l.limit
  }

  predicate InOrder(events: seq<Sighting>, clock: Time) {
    (forall i, j :: 0 <= i < j < |events| ==> events[i].at <= events[j].at) && forall i :: 0 <= i < |events| ==> events[i].at <= clock
  }

  predicate HasWindow(l: Limits, ws: Windows, events: seq<Sighting>, key: string)
    requires key in ws
  {
    && Opening(events, key, l.window) == Some(ws[key].started)
    && (l.window > 0 ==> ws[key].count == CountSince(events, key, ws[key].started))
  }

  predicate NoWindow(l: Limits, events: seq<Sighting>, clock: Time, key: string) {
    var opening := Opening(events, key, l.window);
    opening.None? || opening.value + l.window <= clock
  }

  /** The windows are what the events make them; a window that is missing has rolled over. */
  ghost predicate Agrees(l: Limits, ws: Windows, events: seq<Sighting>, clock: Time) {
    && InOrder(events, clock)
    && (forall key {:trigger HasWindow(l, ws, events, key)} :: key in ws ==> HasWindow(l, ws, events, key))
    && (forall key {:trigger NoWindow(l, events, clock, key)} :: key !in ws ==> NoWindow(l, events, clock, key))
  }

  lemma {:induction false} BeforeRollover(events: seq<Sighting>, clock: Time, key: string, window: nat)
    requires InOrder(events, clock) && window > 0
    ensures forall e <- events :: e.key == key ==>
              Opening(events, key, window).Some? && e.at < Opening(events, key, window).value + window
    decreases |events|
  {
    if events != [] {
      var rest := events[..|events| - 1];
      assert events == rest + [events[|events| - 1]];
      BeforeRollover(rest, clock, key, window);
    }
  }

  lemma {:induction false} OpeningPast(events: seq<Sighting>, clock: Time, key: string, window: nat)
    requires InOrder(events, clock)
    ensures Opening(events, key, window).Some? ==> Opening(events, key, window).value <= clock
    decreases |events|
  {
    if events != [] { OpeningPast(events[..|events| - 1], clock, key, window); }
  }

  lemma {:induction false} NoneSince(events: seq<Sighting>, key: string, start: Time)
    requires forall e <- events :: e.key == key ==> e.at < start
    ensures CountSince(events, key, start) == 0
    decreases |events|
  {
    if events != [] { NoneSince(events[..|events| - 1], key, start); }
  }

  lemma RecordAgrees(l: Limits, ws: Windows, events: seq<Sighting>, clock: Time, key: string, now: Time)
    requires l.Enabled() && Agrees(l, ws, events, clock) && clock <= now
    ensures Agrees(l, l.Record(ws, key, now), events + [Sighting(key, now)], now)
  {
    var ws', more := l.Record(ws, key, now), events + [Sighting(key, now)];
    assert more[..|events|] == events;
    assert key in ws ==> HasWindow(l, ws, events, key);
    assert key !in ws ==> NoWindow(l, events, clock, key);
    if l.window > 0 { BeforeRollover(events, clock, key, l.window); }
    OpeningPast(events, clock, key, l.window);
    if key !in ws || l.RolledOver(ws[key], now) {
      if l.window > 0 { NoneSince(events, key, now); }
    }
    forall k | k in ws'
      ensures HasWindow(l, ws', more, k)
    {
      assert k != key ==> HasWindow(l, ws, events, k);
    }
    forall k | k !in ws'
      ensures NoWindow(l, more, now, k)
    {
      assert NoWindow(l, events, clock, k);
    }
  }

  lemma EvictAgrees(l: Limits, ws: Windows, events: seq<Sighting>, clock: Time, now: Time)
    requires Agrees(l, ws, events, clock) && clock <= now
    ensures Agrees(l, l.Evict(ws, now), events, now)
  {
    hide Opening, CountSince;
    var ws' := l.Evict(ws, now);
    forall k | k in ws'
      ensures HasWindow(l, ws', events, k)
    {
      assert HasWindow(l, ws, events, k);
    }
    forall k | k !in ws'
      ensures NoWindow(l, events, now, k)
    {
      if k in ws { assert HasWindow(l, ws, events, k); } else { assert NoWindow(l, events, clock, k); }
    }
  }

  lemma LaterAgrees(l: Limits, ws: Windows, events: seq<Sighting>, clock: Time, now: Time)
    requires Agrees(l, ws, events, clock) && clock <= now
    ensures Agrees(l, ws, events, now)
  {
    hide Opening, CountSince;
    forall k | k !in ws
      ensures NoWindow(l, events, now, k)
    {
      assert NoWindow(l, events, clock, k);
    }
  }

  lemma LimitedMeansExhausted(l: Limits, ws: Windows, events: seq<Sighting>, clock: Time, key: string, now: Time)
    requires Agrees(l, ws, events, clock) && clock <= now
    ensures l.IsLimited(ws, key, now) <==> Exhausted(l, events, key, now)
  {
    OpeningPast(events, clock, key, l.window);
    hide Opening, CountSince;
    assert key in ws ==> HasWindow(l, ws, events, key);
    assert key !in ws ==> NoWindow(l, events, clock, key);
  }

  /**
   * The limiter as the services hold it. `events` is everything recorded so far and `clock` the latest
   * moment seen; `Valid` says what the stored windows mean in terms of them.
   */
  class FixedWindowLimiter {
    const limits: Limits
    var windows: Windows
    ghost var events: seq<Sighting>
    ghost var clock: Time

    ghost predicate Valid()
      reads this
    {
      Agrees(limits, windows, events, clock)
    }

    constructor (limit: int, window: nat)
      ensures limits == Limits(limit, window) && windows == map[] && Valid() && events == [] && clock == 0
    {
      limits, windows := Limits(limit, window), map[];
      events, clock := [], 0;
    }

    method Record(key: string, now: Time)
      modifies this
      ensures windows == limits.Record(old(windows), key, now)
      ensures events == old(events) + (if limits.Enabled() then [Sighting(key, now)] else []) && clock == now
      ensures old(Valid()) && old(clock) <= now ==> Valid()
    {
      hide Opening, CountSince;
      if Valid() && clock <= now {
        if limits.Enabled() {
          RecordAgrees(limits, windows, events, clock, key, now);
        } else {
          LaterAgrees(limits, windows, events, clock, now);
        }
      }
      clock := now;
      if !limits.Enabled() { return; }
      events := events + [Sighting(key, now)];
      if key !in windows || now as int - windows[key].started as int >= limits.window {
        windows := windows[key := Window(now, 1)];
        return;
      }
      windows := windows[key := Window(windows[key].started, windows[key].count + 1)];
    }

    /** While time has not gone back: limited exactly when the recorded events have used up the present window. */
    method IsLimited(key: string, now: Time) returns (limited: bool)
      ensures limited == limits.IsLimited(windows, key, now)
      ensures Valid() && clock <= now ==> (limited <==> Exhausted(limits, events, key, now))
    {
      hide Opening, CountSince;
      if Valid() && clock <= now { LimitedMeansExhausted(limits, windows, events, clock, key, now); }
      if !limits.Enabled() { return false; }
      if key !in windows || now as int - windows[key].started as int >= limits.window { return false; }
      limited := windows[key].count >= limits.limit;
    }

    /** A limited caller waits at least a moment, and no longer than one window. */
    method RetryAfter(key: string, now: Time) returns (wait: nat)
      ensures wait == limits.RetryAfter(windows, key, now)
      ensures limits.IsLimited(windows, key, now) <==> wait > 0
      ensures limits.IsLimited(windows, key, now) ==> !limits.IsLimited(windows, key, now + wait)
      ensures forall then': Time :: now <= then' < now + wait ==> limits.IsLimited(windows, key, then')
    {
      var limited := IsLimited(key, now);
      if !limited { return 0; }
      wait := Max(windows[key].started + limits.window - now, 0);
    }

    method EvictExpired(now: Time) returns (evicted: nat)
      modifies this
      ensures windows == limits.Evict(old(windows), now) && evicted == |old(windows)| - |windows|
      ensures events == old(events) && clock == now
      ensures old(Valid()) && old(clock) <= now ==> Valid()
    {
      hide Agrees, Limits.Evict;
      if Valid() && clock <= now { EvictAgrees(limits, windows, events, clock, now); }
      EvictDropsStale(limits, windows, now);
      clock := now;
      windows, evicted := DropEach(windows, Stale(limits, windows, now));
    }
  }

  method DropEach(ws: Windows, stale: set<string>) returns (kept: Windows, dropped: nat)
    ensures kept == ws - stale && dropped == |stale|
  {
    kept, dropped := ws, 0;
    var left := stale;
    while left != {}
      invariant left <= stale && kept == ws - (stale - left) && dropped == |stale| - |left|
      decreases |left|
    {
      var key :| key in left;
      assert stale - (left - {key}) == (stale - left) + {key};
      kept := kept - {key};
      left := left - {key};
      dropped := dropped + 1;
    }
    assert stale - left == stale;
  }

  function Stale(l: Limits, ws: Windows, now: Time): set<string> {
    set key | key in ws && l.RolledOver(ws[key], now)
  }

  lemma EvictDropsStale(l: Limits, ws: Windows, now: Time)
    ensures l.Evict(ws, now) == ws - Stale(l, ws, now)
    ensures |ws - Stale(l, ws, now)| == |ws| - |Stale(l, ws, now)|
  {
    DropCount(ws, Stale(l, ws, now));
  }

  lemma DropCount(ws: Windows, gone: set<string>)
    requires gone <= ws.Keys
    ensures |ws - gone| == |ws| - |gone|
  {
    var rest := ws - gone;
    assert ws.Keys == rest.Keys + gone && rest.Keys !! gone;
    assert |ws| == |ws.Keys| && |rest| == |rest.Keys|;
  }

  // ----- runs

  /** One recorded event, and the window it was counted in. */
  datatype Event = Event(key: string, at: Time, start: Time)

  datatype Run = Run(windows: Windows, clock: Time, log: seq<Event>)

  /** Time never goes back. A try is a check followed, when it passes, by a record at the same moment. */
  datatype Step =
    | Try(key: string, elapsed: nat)
    | Check(key: string, elapsed: nat)
    | EvictStep(elapsed: nat)
    | Wait(elapsed: nat)

  function Next(l: Limits, r: Run, step: Step): Run {
    var now := r.clock + step.elapsed;
    match step
    case Try(key, _) =>
      if l.IsLimited(r.windows, key, now) || !l.Enabled() then r.(clock := now)
      else
        var ws := l.Record(r.windows, key, now);
        Run(ws, now, r.log + [Event(key, now, ws[key].started)])
    case Check(_, _) => r.(clock := now)
    case EvictStep(_) => r.(windows := l.Evict(r.windows, now), clock := now)
    case Wait(_) => r.(clock := now)
  }

  function Steps(l: Limits, r: Run, steps: seq<Step>): Run
    decreases |steps|
  {
    if steps == [] then r else Steps(l, Next(l, r, steps[0]), steps[1..])
  }

  const START := Run(map[], 0, [])

  function CountedIn(log: seq<Event>, key: string, start: Time): nat {
    if log == [] then 0
    else CountedIn(log[..|log| - 1], key, start) + if log[|log| - 1].key == key && log[|log| - 1].start == start then 1 else 0
  }

  /** Events recorded for `key` in the half-open interval of one window length from `t`. */
  function CountedFrom(log: seq<Event>, key: string, t: Time, window: nat): nat {
    if log == [] then 0
    else CountedFrom(log[..|log| - 1], key, t, window)
         + if log[|log| - 1].key == key && t <= log[|log| - 1].at < t + window then 1 else 0
  }

  // ----- the invariant

  predicate EventOk(l: Limits, r: Run, e: Event) {
    && e.start <= e.at <= r.clock && e.at - e.start < l.window
    && if e.key in r.windows then e.start == r.windows[e.key].started || e.start + l.window <= r.windows[e.key].started
       else e.start + l.window <= r.clock
  }

  predicate WindowOk(l: Limits, r: Run, key: string)
    requires key in r.windows
  {
    r.windows[key].started <= r.clock && CountedIn(r.log, key, r.windows[key].started) == r.windows[key].count
  }

  ghost predicate Counted(l: Limits, r: Run) {
    && (forall e {:trigger EventOk(l, r, e)} :: e in r.log ==> EventOk(l, r, e))
    && (forall key {:trigger WindowOk(l, r, key)} :: key in r.windows ==> WindowOk(l, r, key))
    && (forall key: string, start: Time {:trigger CountedIn(r.log, key, start)} :: CountedIn(r.log, key, start) <= l.limit)
    && (forall d, e {:trigger d in r.log, e in r.log} :: d in r.log && e in r.log && d.key == e.key ==> Apart(l, d, e))
  }

  /** Two windows of one key are the same, or at least a window apart. */
  predicate Apart(l: Limits, d: Event, e: Event) {
    d.start == e.start || d.start + l.window <= e.start || e.start + l.window <= d.start
  }

  lemma CountedInMore(log: seq<Event>, e: Event, key: string, start: Time)
    ensures CountedIn(log + [e], key, start) == CountedIn(log, key, start) + if e.key == key && e.start == start then 1 else 0
  {
    assert (log + [e])[..|log|] == log;
  }

  lemma {:induction false} CountedInNone(log: seq<Event>, key: string, start: Time)
    requires forall e <- log :: e.key == key ==> e.start != start
    ensures CountedIn(log, key, start) == 0
    decreases |log|
  {
    if log != [] { CountedInNone(log[..|log| - 1], key, start); }
  }

  lemma TryKeeps(l: Limits, r: Run, key: string, elapsed: nat)
    requires l.Enabled() && l.window > 0 && Counted(l, r) && !l.IsLimited(r.windows, key, r.clock + elapsed)
    ensures Counted(l, Next(l, r, Try(key, elapsed)))
  {
    var r' := Next(l, r, Try(key, elapsed));
    var e := r'.log[|r.log|];
    assert r'.log == r.log + [e] && e.key == key;
    TryKeepsWindows(l, r, key, elapsed);
    forall d | d in r'.log
      ensures EventOk(l, r', d) && (d.key == key ==> Apart(l, d, e))
    {
      TryKeepsEvent(l, r, key, elapsed, d);
    }
    forall k: string, start: Time
      ensures CountedIn(r'.log, k, start) <= l.limit
    {
      CountedInMore(r.log, e, k, start);
      if k == key && start == e.start { assert WindowOk(l, r', key); }
    }
    hide CountedIn, EventOk, WindowOk, Apart, Next;
  }

  lemma TryKeepsEvent(l: Limits, r: Run, key: string, elapsed: nat, d: Event)
    requires l.Enabled() && l.window > 0 && Counted(l, r) && !l.IsLimited(r.windows, key, r.clock + elapsed)
    requires d in Next(l, r, Try(key, elapsed)).log
    ensures var r' := Next(l, r, Try(key, elapsed)); EventOk(l, r', d) && (d.key == key ==> Apart(l, d, r'.log[|r.log|]))
  {
    hide CountedIn, Apart;
    if d in r.log { assert EventOk(l, r, d); }
    assert key in r.windows ==> WindowOk(l, r, key);
    if d.key == key { TryApart(l, r, key, elapsed, d); }
  }

  lemma TryApart(l: Limits, r: Run, key: string, elapsed: nat, d: Event)
    requires l.Enabled() && l.window > 0 && Counted(l, r) && !l.IsLimited(r.windows, key, r.clock + elapsed)
    requires d in Next(l, r, Try(key, elapsed)).log && d.key == key
    ensures Apart(l, d, Next(l, r, Try(key, elapsed)).log[|r.log|])
  {
    hide CountedIn;
    if d in r.log { assert EventOk(l, r, d); }
  }

  lemma TryKeepsWindows(l: Limits, r: Run, key: string, elapsed: nat)
    requires l.Enabled() && l.window > 0 && Counted(l, r) && !l.IsLimited(r.windows, key, r.clock + elapsed)
    ensures var r' := Next(l, r, Try(key, elapsed)); forall k <- r'.windows :: WindowOk(l, r', k) && (k == key ==> r'.windows[k].count <= l.limit)
  {
    hide CountedIn, EventOk, Apart;
    var r' := Next(l, r, Try(key, elapsed));
    var e := r'.log[|r.log|];
    assert r'.log == r.log + [e];
    FreshWindow(l, r, key, elapsed);
    forall k | k in r'.windows
      ensures WindowOk(l, r', k) && (k == key ==> r'.windows[k].count <= l.limit)
    {
      CountedInMore(r.log, e, k, r'.windows[k].started);
      assert k in r.windows ==> WindowOk(l, r, k);
    }
  }

  /** A window opened now has nothing counted in it yet. */
  lemma FreshWindow(l: Limits, r: Run, key: string, elapsed: nat)
    requires l.Enabled() && l.window > 0 && Counted(l, r)
    ensures key !in r.windows || l.RolledOver(r.windows[key], r.clock + elapsed) ==> CountedIn(r.log, key, r.clock + elapsed) == 0
  {
    if key !in r.windows || l.RolledOver(r.windows[key], r.clock + elapsed) {
      forall d | d in r.log && d.key == key
        ensures d.start != r.clock + elapsed
      {
        assert EventOk(l, r, d);
      }
      CountedInNone(r.log, key, r.clock + elapsed);
    }
  }

  lemma PassingKeeps(l: Limits, r: Run, elapsed: nat, evict: bool)
    requires Counted(l, r)
    ensures Counted(l, Next(l, r, if evict then EvictStep(elapsed) else Wait(elapsed)))
  {
    hide CountedIn;
    var r' := Next(l, r, if evict then EvictStep(elapsed) else Wait(elapsed));
    forall e | e in r'.log
      ensures EventOk(l, r', e)
    {
      assert EventOk(l, r, e);
    }
    forall k | k in r'.windows
      ensures WindowOk(l, r', k)
    {
      assert WindowOk(l, r, k);
    }
  }

  lemma NextCounted(l: Limits, r: Run, step: Step)
    requires l.Enabled() && l.window > 0 && Counted(l, r)
    ensures Counted(l, Next(l, r, step))
  {
    hide Counted;
    match step
    case Try(key, elapsed) =>
      if l.IsLimited(r.windows, key, r.clock + elapsed) { PassingKeeps(l, r, elapsed, false); } else { TryKeeps(l, r, key, elapsed); }
    case Check(_, elapsed) => PassingKeeps(l, r, elapsed, false);
    case EvictStep(elapsed) => PassingKeeps(l, r, elapsed, true);
    case Wait(elapsed) => PassingKeeps(l, r, elapsed, false);
  }

  lemma {:induction false} RunCounted(l: Limits, r: Run, steps: seq<Step>)
    requires l.Enabled() && l.window > 0 && Counted(l, r)
    ensures Counted(l, Steps(l, r, steps))
    decreases |steps|
  {
    hide Counted, Next;
    if steps != [] {
      NextCounted(l, r, steps[0]);
      RunCounted(l, Next(l, r, steps[0]), steps[1..]);
    }
  }

  // ----- counting an interval

  ghost predicate Inside(l: Limits, log: seq<Event>, key: string, t: Time, e: Event) {
    e in log && e.key == key && t <= e.at < t + l.window
  }

  /** Any interval of one window length meets at most two windows. */
  lemma TwoWindows(l: Limits, r: Run, key: string, t: Time) returns (a: Time, b: Time)
    requires l.window > 0 && Counted(l, r)
    ensures forall e :: Inside(l, r.log, key, t, e) ==> e.start == a || e.start == b
  {
    hide CountedIn;
    a, b := 0, 0;
    if d :| Inside(l, r.log, key, t, d) {
      a, b := d.start, d.start;
      if e :| Inside(l, r.log, key, t, e) && e.start != a {
        b := e.start;
        forall f | Inside(l, r.log, key, t, f)
          ensures f.start == a || f.start == b
        {
          assert EventOk(l, r, d) && EventOk(l, r, e) && EventOk(l, r, f);
          assert Apart(l, d, e) && Apart(l, d, f) && Apart(l, e, f);
        }
      }
    }
  }

  lemma {:induction false} CountedInTwo(l: Limits, log: seq<Event>, key: string, t: Time, a: Time, b: Time)
    requires forall e :: Inside(l, log, key, t, e) ==> e.start == a || e.start == b
    ensures CountedFrom(log, key, t, l.window) <= CountedIn(log, key, a) + CountedIn(log, key, b)
    decreases |log|
  {
    if log != [] {
      var last, rest := log[|log| - 1], log[..|log| - 1];
      assert log == rest + [last];
      forall e | Inside(l, rest, key, t, e)
        ensures e.start == a || e.start == b
      {
        assert Inside(l, log, key, t, e);
      }
      if last.key == key && t <= last.at < t + l.window { assert Inside(l, log, key, t, last); }
      CountedInTwo(l, rest, key, t, a, b);
    }
  }

  /** In every run, any half-open interval of one window length holds at most twice the limit of recorded events per key. */
  lemma AtMostTwiceTheLimit(l: Limits, steps: seq<Step>, key: string, t: Time)
    requires l.Enabled() && l.window > 0
    ensures CountedFrom(Steps(l, START, steps).log, key, t, l.window) <= 2 * l.limit
  {
    hide Steps, CountedIn, CountedFrom;
    StartCounted(l);
    RunCounted(l, START, steps);
    var r := Steps(l, START, steps);
    var a, b := TwoWindows(l, r, key, t);
    CountedInTwo(l, r.log, key, t, a, b);
  }

  lemma StartCounted(l: Limits)
    requires l.Enabled()
    ensures Counted(l, START)
  {
  }

  // ----- eviction is invisible

  /** What a caller sees of a run: the answer to each check and each try. */
  function Answers(l: Limits, r: Run, steps: seq<Step>): seq<bool>
    decreases |steps|
  {
    if steps == [] then []
    else
      (if steps[0].Try? || steps[0].Check? then [l.IsLimited(r.windows, steps[0].key, r.clock + steps[0].elapsed)] else [])
      + Answers(l, Next(l, r, steps[0]), steps[1..])
  }

  function WithoutEviction(steps: seq<Step>): seq<Step> {
    if steps == [] then []
    else [if steps[0].EvictStep? then Wait(steps[0].elapsed) else steps[0]] + WithoutEviction(steps[1..])
  }

  /** The same windows, save for some that have rolled over. */
  predicate SaveExpired(l: Limits, full: Run, evicted: Run) {
    && full.clock == evicted.clock && full.log == evicted.log
    && (forall k <- evicted.windows :: k in full.windows && full.windows[k] == evicted.windows[k])
    && (forall k <- full.windows :: k !in evicted.windows ==> l.RolledOver(full.windows[k], full.clock))
  }

  lemma StepSavesExpired(l: Limits, full: Run, evicted: Run, step: Step)
    requires SaveExpired(l, full, evicted)
    ensures SaveExpired(l, Next(l, full, if step.EvictStep? then Wait(step.elapsed) else step), Next(l, evicted, step))
    ensures step.Try? || step.Check? ==>
              l.IsLimited(full.windows, step.key, full.clock + step.elapsed) == l.IsLimited(evicted.windows, step.key, evicted.clock + step.elapsed)
  {
  }

  /** Evicting at any points of a run changes no answer, then or later, and nothing that is recorded. */
  lemma {:induction false} EvictionIsInvisible(l: Limits, full: Run, evicted: Run, steps: seq<Step>)
    requires SaveExpired(l, full, evicted)
    ensures Answers(l, evicted, steps) == Answers(l, full, WithoutEviction(steps))
    ensures Steps(l, evicted, steps).log == Steps(l, full, WithoutEviction(steps)).log
    decreases |steps|
  {
    hide SaveExpired, Next;
    if steps == [] {
      SameLog(l, full, evicted);
    } else {
      StepSavesExpired(l, full, evicted, steps[0]);
      var rest := WithoutEviction(steps[1..]);
      var first := if steps[0].EvictStep? then Wait(steps[0].elapsed) else steps[0];
      assert WithoutEviction(steps)[1..] == rest && WithoutEviction(steps)[0] == first;
      EvictionIsInvisible(l, Next(l, full, first), Next(l, evicted, steps[0]), steps[1..]);
    }
  }

  lemma SameLog(l: Limits, full: Run, evicted: Run)
    requires SaveExpired(l, full, evicted)
    ensures full.log == evicted.log
  {
  }
}
