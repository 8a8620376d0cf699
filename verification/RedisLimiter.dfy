/** The Redis rate limiter for one key: INCR, EXPIRE and TTL are separate commands of many clients, the server drops the
    key once its deadline has come, and a client may stop between any two commands. Times are in milliseconds. */
module RedisLimiter {
  import opened Wrappers
  import opened FixedWindows

  datatype Config = Config(limit: int, window: int)

  datatype Phase = Counting | Stamped | Answered(decision: Decision) | Crashed

  /** One call of check: what INCR returned, when, and in which lifetime of the key. */
  datatype Client = Client(count: nat, at: int, life: nat, phase: Phase)

  /** The key's value, its deadline and its lifetime's number and beginning, which outlast it; the calls that INCR left
      within the limit, in order; and the lifetimes in which EXPIRE was issued. */
  datatype State = State(now: int, present: bool, count: nat, deadline: Option<int>, life: nat, start: int,
                         clients: map<nat, Client>, admitted: seq<nat>, hits: seq<Hit>, stamps: seq<nat>)

  datatype Step =
    | Tick(to: int)
    | Lapse
    | Incr(c: nat)
    | Expire(c: nat)
    | Answer(c: nat)
    | Crash(c: nat)

  /** The server does not answer from a key whose deadline has passed. */
  predicate Overdue(s: State) {
    s.present && s.deadline.Some? && s.now > s.deadline.value
  }

  predicate Enabled(cfg: Config, s: State, step: Step) {
    match step
    case Tick(to) => s.now <= to
    case Lapse => s.present && s.deadline.Some? && s.now >= s.deadline.value
    case Incr(c) => c !in s.clients && !Overdue(s)
    case Expire(c) => c in s.clients && s.clients[c].phase.Counting? && s.clients[c].count == 1 && !Overdue(s)
    case Answer(c) =>
      && c in s.clients && !Overdue(s)
      && (s.clients[c].phase.Stamped? || (s.clients[c].phase.Counting? && s.clients[c].count != 1))
    case Crash(c) => c in s.clients && !s.clients[c].phase.Answered?
  }

  /** TTL: -2 without a key, -1 without a deadline, and the time left rounded to seconds otherwise. */
  function Ttl(s: State): int {
    if !s.present then -2
    else if s.deadline.None? then -1
    else (Max(0, s.deadline.value - s.now) + 500) / 1000
  }

  function Decide(cfg: Config, s: State, count: nat): Decision {
    if count > cfg.limit then Decision(false, Max(Ttl(s), 1)) else Decision(true, 0)
  }

  /** INCR creates the key with value 1 and no deadline, or adds one. */
  function Incremented(cfg: Config, s: State, c: nat): State {
    var s' := if s.present then s.(count := s.count + 1)
      else s.(present := true, count := 1, deadline := None, life := s.life + 1, start := s.now);
    var client := Client(s'.count, s.now, s'.life, Counting);
    if s'.count <= cfg.limit
    then s'.(clients := s.clients[c := client], admitted := s.admitted + [c], hits := s.hits + [Hit(s.now as real, s'.life)])
    else s'.(clients := s.clients[c := client])
  }

  /** EXPIRE does nothing without a key, and deletes the key if the window is not positive. */
  function Expired(cfg: Config, s: State): State {
    if !s.present then s
    else if cfg.window <= 0 then s.(present := false)
    else s.(deadline := Some(s.now + 1000 * cfg.window))
  }

  function Moved(s: State, c: nat, p: Phase): map<nat, Client>
    requires c in s.clients
  {
    s.clients[c := s.clients[c].(phase := p)]
  }

  function After(cfg: Config, s: State, step: Step): State
    requires Enabled(cfg, s, step)
  {
    match step
    case Tick(to) => s.(now := to)
    case Lapse => s.(present := false)
    case Incr(c) => Incremented(cfg, s, c)
    case Expire(c) => Expired(cfg, s).(clients := Moved(s, c, Stamped), stamps := s.stamps + [s.clients[c].life])
    case Answer(c) => s.(clients := Moved(s, c, Answered(Decide(cfg, s, s.clients[c].count))))
    case Crash(c) => s.(clients := Moved(s, c, Crashed))
  }

  // ---------- the invariant ----------

  /** INCR never returns the same number twice in one lifetime, and never more than the value. */
  ghost predicate CountsApart(s: State) {
    && (forall c | c in s.clients ::
          && 1 <= s.clients[c].count && 1 <= s.clients[c].life <= s.life
          && (s.clients[c].life == s.life ==> s.clients[c].count <= s.count))
    && (forall c, k | c in s.clients && k in s.clients && c != k && s.clients[c].life == s.clients[k].life ::
          s.clients[c].count != s.clients[k].count)
  }

  ghost predicate SawOne(s: State, c: nat, life: nat) {
    c in s.clients && s.clients[c].life == life && s.clients[c].count == 1
  }

  ghost predicate Began(s: State, life: nat) {
    exists c :: SawOne(s, c, life)
  }

  ghost predicate EachBegan(s: State) {
    forall life: nat | 1 <= life <= s.life :: Began(s, life)
  }

  /** A client between INCR and EXPIRE keeps its key: a key without a deadline cannot lapse. */
  ghost predicate Guarded(s: State) {
    && (forall c | c in s.clients && s.clients[c].count == 1 && s.clients[c].phase.Counting? ::
          s.present && s.clients[c].life == s.life && s.deadline.None? && s.life !in s.stamps)
    && (forall c | c in s.clients && s.clients[c].count == 1 && s.clients[c].life == s.life && s.present && s.deadline.None? ::
          s.clients[c].phase.Counting? || s.clients[c].phase.Crashed?)
    && (forall i | 0 <= i < |s.stamps| :: s.stamps[i] <= s.life)
    && (forall i, k | 0 <= i < k < |s.stamps| :: s.stamps[i] != s.stamps[k])
  }

  ghost predicate Clocked(cfg: Config, s: State) {
    && (s.present ==> s.life > 0)
    && (s.life > 0 ==> s.start <= s.now && s.count > 0)
    && (s.present && s.deadline.Some? ==>
          s.start + 1000 * cfg.window <= s.deadline.value <= s.now + 1000 * cfg.window && cfg.window > 0)
    && (!s.present && s.life > 0 && cfg.window > 0 ==> s.start + 1000 * cfg.window <= s.now)
  }

  /** Answers agree with the counts, and a refusal names between one second and the window. */
  ghost predicate Answers(cfg: Config, s: State) {
    forall c | c in s.clients && s.clients[c].phase.Answered? ::
      var client := s.clients[c];
      && (client.phase.decision.allowed <==> client.count <= cfg.limit)
      && (client.phase.decision.allowed ==> client.phase.decision.retryAfter == 0)
      && (!client.phase.decision.allowed && cfg.window >= 1 ==> 1 <= client.phase.decision.retryAfter <= cfg.window)
  }

  ghost predicate Recorded(cfg: Config, s: State) {
    && |s.admitted| == |s.hits|
    && (forall i | 0 <= i < |s.admitted| ::
          && s.admitted[i] in s.clients && s.clients[s.admitted[i]].count <= cfg.limit
          && s.hits[i] == Hit(s.clients[s.admitted[i]].at as real, s.clients[s.admitted[i]].life)
          && s.hits[i].at <= s.now as real)
    && (forall c | c in s.clients && s.clients[c].count <= cfg.limit :: c in s.admitted)
  }

  ghost predicate Spread(cfg: Config, s: State) {
    cfg.limit >= 1 && cfg.window >= 1 ==>
      if s.life == 0 then s.hits == []
      else Fits(s.hits, cfg.limit, (1000 * cfg.window) as real, s.life, s.start as real, Min(s.count, cfg.limit))
  }

  ghost predicate Inv(cfg: Config, s: State) {
    && CountsApart(s) && EachBegan(s) && Guarded(s) && Clocked(cfg, s)
    && Answers(cfg, s) && Recorded(cfg, s) && Spread(cfg, s)
  }

  lemma CountsStep(cfg: Config, s: State, step: Step)
    requires Enabled(cfg, s, step) && CountsApart(s) && Clocked(cfg, s)
    ensures CountsApart(After(cfg, s, step))
  {
    hide Incremented, Decide;
    if step.Incr? {
      CountsIncr(cfg, s, step.c);
    } else if !step.Tick? && !step.Lapse? {
      SameCounts(s, After(cfg, s, step));
    }
  }

  lemma SameCounts(s: State, s': State)
    requires CountsApart(s) && s'.life == s.life && s'.count == s.count && s'.clients.Keys == s.clients.Keys
    requires forall c | c in s.clients :: s'.clients[c].(phase := Counting) == s.clients[c].(phase := Counting)
    ensures CountsApart(s')
  {
    forall c | c in s'.clients ensures s'.clients[c].count == s.clients[c].count && s'.clients[c].life == s.clients[c].life {
      assert s'.clients[c].(phase := Counting) == s.clients[c].(phase := Counting);
    }
  }

  lemma CountsIncr(cfg: Config, s: State, c: nat)
    requires c !in s.clients && CountsApart(s) && Clocked(cfg, s)
    ensures CountsApart(Incremented(cfg, s, c))
  {
  }

  lemma BeganStep(cfg: Config, s: State, step: Step)
    requires Enabled(cfg, s, step) && EachBegan(s)
    ensures EachBegan(After(cfg, s, step))
  {
    var s' := After(cfg, s, step);
    forall life: nat | 1 <= life <= s'.life ensures Began(s', life) {
      if life <= s.life {
        assert Began(s, life);
        var c :| SawOne(s, c, life);
        assert SawOne(s', c, life);
      } else {
        assert SawOne(s', step.c, life);
      }
    }
  }

  lemma GuardedStep(cfg: Config, s: State, step: Step)
    requires Enabled(cfg, s, step) && CountsApart(s) && Guarded(s) && Clocked(cfg, s)
    ensures Guarded(After(cfg, s, step))
  {
  }

  lemma ClockedStep(cfg: Config, s: State, step: Step)
    requires Enabled(cfg, s, step) && Guarded(s) && Clocked(cfg, s)
    ensures Clocked(cfg, After(cfg, s, step))
  {
  }

  lemma AnswersStep(cfg: Config, s: State, step: Step)
    requires Enabled(cfg, s, step) && Clocked(cfg, s) && Answers(cfg, s)
    ensures Answers(cfg, After(cfg, s, step))
  {
  }

  lemma RecordedStep(cfg: Config, s: State, step: Step)
    requires Enabled(cfg, s, step) && Recorded(cfg, s)
    ensures Recorded(cfg, After(cfg, s, step))
  {
  }

  /** INCR within the limit adds a hit to the key's current lifetime. */
  lemma SpreadIncr(cfg: Config, s: State, c: nat)
    requires Enabled(cfg, s, Incr(c)) && Clocked(cfg, s) && Recorded(cfg, s) && Spread(cfg, s)
    requires cfg.limit >= 1 && cfg.window >= 1
    ensures Spread(cfg, After(cfg, s, Incr(c)))
  {
    hide Fits;
    var length, limit, now := (1000 * cfg.window) as real, cfg.limit, s.now as real;
    if s.present {
      if s.count < limit {
        Admit(s.hits, limit, length, s.life, s.start as real, s.count, now);
      }
    } else {
      if s.life == 0 {
        NoHits(limit, length, now);
      } else {
        assert s.start as real + length <= now;
        Roll(s.hits, limit, length, s.life, s.start as real, Min(s.count, limit), now);
      }
      Admit(s.hits, limit, length, s.life + 1, now, 0, now);
    }
  }

  lemma NoHits(limit: nat, length: real, start: real)
    ensures Fits([], limit, length, 1, start, 0)
  {
  }

  lemma SpreadStep(cfg: Config, s: State, step: Step)
    requires Enabled(cfg, s, step) && Clocked(cfg, s) && Recorded(cfg, s) && Spread(cfg, s)
    ensures Spread(cfg, After(cfg, s, step))
  {
    hide Fits, Recorded;
    if step.Incr? && cfg.limit >= 1 && cfg.window >= 1 {
      SpreadIncr(cfg, s, step.c);
    }
  }

  lemma StepKeepsInv(cfg: Config, s: State, step: Step)
    requires Inv(cfg, s) && Enabled(cfg, s, step)
    ensures Inv(cfg, After(cfg, s, step))
  {
    hide After, CountsApart, EachBegan, Guarded, Clocked, Answers, Recorded, Spread;
    CountsStep(cfg, s, step);
    BeganStep(cfg, s, step);
    GuardedStep(cfg, s, step);
    ClockedStep(cfg, s, step);
    AnswersStep(cfg, s, step);
    RecordedStep(cfg, s, step);
    SpreadStep(cfg, s, step);
  }

  // ---------- runs ----------

  datatype Run = Run(states: seq<State>, steps: seq<Step>)

  ghost predicate IsPath(cfg: Config, r: Run) {
    && |r.states| == |r.steps| + 1
    && forall i | 0 <= i < |r.steps| :: Linked(cfg, r, i)
  }

  /** The key and its clients before the first call. */
  function Idle(now: int): State {
    State(now, false, 0, None, 0, now, map[], [], [], [])
  }

  ghost predicate IsRun(cfg: Config, r: Run) {
    IsPath(cfg, r) && r.states[0] == Idle(r.states[0].now)
  }

  ghost predicate Linked(cfg: Config, r: Run, i: nat)
    requires i < |r.steps| < |r.states|
  {
    Enabled(cfg, r.states[i], r.steps[i]) && r.states[i + 1] == After(cfg, r.states[i], r.steps[i])
  }

  function Last(r: Run): State
    requires r.states != []
  {
    r.states[|r.states| - 1]
  }

  function Start(s: State): Run {
    Run([s], [])
  }

  /** A path with one more step. */
  ghost function Then(cfg: Config, r: Run, step: Step): (r': Run)
    requires IsPath(cfg, r) && Enabled(cfg, Last(r), step)
    ensures IsPath(cfg, r') && r'.states != [] && Last(r') == After(cfg, Last(r), step)
    ensures r'.steps == r.steps + [step] && r'.states[0] == r.states[0]
  {
    var r' := Run(r.states + [After(cfg, Last(r), step)], r.steps + [step]);
    ThenLinked(cfg, r, step, r');
    r'
  }

  lemma ThenLinked(cfg: Config, r: Run, step: Step, r': Run)
    requires IsPath(cfg, r) && Enabled(cfg, Last(r), step)
    requires r' == Run(r.states + [After(cfg, Last(r), step)], r.steps + [step])
    ensures IsPath(cfg, r')
  {
    hide Enabled, After;
    forall i | 0 <= i < |r'.steps| ensures Linked(cfg, r', i) {
      assert i < |r.steps| ==> Linked(cfg, r, i);
    }
  }

  lemma OnePath(cfg: Config, s: State)
    ensures IsPath(cfg, Start(s)) && Last(Start(s)) == s
  {
  }

  lemma {:induction false} PathKeepsInv(cfg: Config, r: Run, i: nat, n: nat)
    requires IsPath(cfg, r) && i <= n <= |r.steps| && Inv(cfg, r.states[i])
    ensures Inv(cfg, r.states[n])
  {
    hide Inv, After, Enabled;
    if i < n {
      PathKeepsInv(cfg, r, i, n - 1);
      assert Linked(cfg, r, n - 1);
      StepKeepsInv(cfg, r.states[n - 1], r.steps[n - 1]);
    }
  }

  lemma Reaches(cfg: Config, r: Run, n: nat)
    requires IsRun(cfg, r) && n <= |r.steps|
    ensures Inv(cfg, r.states[n])
  {
    PathKeepsInv(cfg, r, 0, n);
  }

  function AllowedIn(s: State, life: nat): set<nat> {
    set c | c in s.clients && s.clients[c].life == life && s.clients[c].phase.Answered?
            && s.clients[c].phase.decision.allowed
  }

  lemma {:induction false} DistinctCounts(s: State, callers: set<nat>, life: nat, limit: nat)
    requires CountsApart(s)
    requires forall c | c in callers :: c in s.clients && s.clients[c].life == life && s.clients[c].count <= limit
    ensures |callers| <= limit
    decreases limit
  {
    if c :| c in callers && s.clients[c].count == limit {
      DistinctCounts(s, callers - {c}, life, limit - 1);
    } else if callers == {} {
    } else {
      var c :| c in callers;
      DistinctCounts(s, callers, life, limit - 1);
    }
  }

  /** In every state of every run, at most `limit` of the calls counted in one lifetime of the key have been allowed, and
      exactly one client of each lifetime saw 1. */
  lemma LimitPerLifetime(cfg: Config, r: Run, n: nat, life: nat)
    requires IsRun(cfg, r) && n <= |r.steps|
    ensures |AllowedIn(r.states[n], life)| <= Max(0, cfg.limit)
    ensures 1 <= life <= r.states[n].life ==>
      exists c :: SawOne(r.states[n], c, life) && forall k | SawOne(r.states[n], k, life) :: k == c
  {
    Reaches(cfg, r, n);
    var s := r.states[n];
    DistinctCounts(s, AllowedIn(s, life), life, Max(0, cfg.limit));
    if 1 <= life <= s.life {
      assert Began(s, life);
      var c :| SawOne(s, c, life);
    }
  }

  /** EXPIRE finds the key still in the lifetime whose first call it follows, without a deadline, and no EXPIRE has been
      issued in that lifetime before. */
  lemma ExpireLandsOnce(cfg: Config, r: Run, n: nat, c: nat)
    requires IsRun(cfg, r) && n < |r.steps| && r.steps[n] == Expire(c)
    ensures var s := r.states[n];
      && c in s.clients && s.present && s.clients[c].life == s.life && s.deadline.None?
      && forall k | 0 <= k < n && r.steps[k].Expire? && r.steps[k].c in r.states[k].clients ::
           r.states[k].clients[r.steps[k].c].life != s.life
  {
    Reaches(cfg, r, n);
    assert Linked(cfg, r, n);
    forall k | 0 <= k < n && r.steps[k].Expire? && r.steps[k].c in r.states[k].clients
      ensures r.states[k].clients[r.steps[k].c].life != r.states[n].life
    {
      StampRecorded(cfg, r, k, n);
    }
  }

  lemma {:induction false} StampRecorded(cfg: Config, r: Run, k: nat, n: nat)
    requires IsRun(cfg, r) && k < n <= |r.steps| && r.steps[k].Expire? && r.steps[k].c in r.states[k].clients
    ensures r.states[k].clients[r.steps[k].c].life in r.states[n].stamps
  {
    assert Linked(cfg, r, n - 1);
    if k == n - 1 {
      var life := r.states[k].clients[r.steps[k].c].life;
      assert r.states[n].stamps[|r.states[k].stamps|] == life;
    } else {
      StampRecorded(cfg, r, k, n - 1);
    }
  }

  /** Every answer: allowed with 0, or refused with between one second and the window, whatever happened to the key since
      it was counted. */
  lemma AnswerBounds(cfg: Config, r: Run, n: nat, c: nat)
    requires IsRun(cfg, r) && n <= |r.steps| && c in r.states[n].clients && r.states[n].clients[c].phase.Answered?
    ensures var client := r.states[n].clients[c];
      var d := client.phase.decision;
      && (d.allowed <==> client.count <= cfg.limit)
      && (d.allowed ==> d.retryAfter == 0)
      && (!d.allowed && cfg.window >= 1 ==> 1 <= d.retryAfter <= cfg.window)
  {
    Reaches(cfg, r, n);
  }

  /** The allowed calls that were counted in the half-open interval of one window from t. */
  function AllowedDuring(cfg: Config, s: State, t: int): set<nat> {
    set c | c in s.clients && s.clients[c].phase.Answered? && s.clients[c].phase.decision.allowed
            && t <= s.clients[c].at < t + 1000 * cfg.window
  }

  lemma {:induction false} Images(callers: set<nat>, indices: set<nat>, admitted: seq<nat>)
    requires forall i | i in indices :: i < |admitted|
    requires forall c | c in callers :: exists i :: i in indices && admitted[i] == c
    ensures |callers| <= |indices|
    decreases |callers|
  {
    if callers != {} {
      var c :| c in callers;
      var i :| i in indices && admitted[i] == c;
      forall k | k in callers - {c} ensures exists m :: m in indices - {i} && admitted[m] == k {
        var m :| m in indices && admitted[m] == k;
        assert m in indices - {i};
      }
      Images(callers - {c}, indices - {i}, admitted);
    }
  }

  /** Any half-open interval of one window's length holds at most 2 * limit - 1 calls that are allowed. */
  lemma SlidingLimit(cfg: Config, r: Run, n: nat, t: int)
    requires IsRun(cfg, r) && n <= |r.steps|
    ensures |AllowedDuring(cfg, r.states[n], t)| <= Max(0, 2 * cfg.limit - 1)
  {
    Reaches(cfg, r, n);
    var s, callers := r.states[n], AllowedDuring(cfg, r.states[n], t);
    if cfg.limit < 1 || cfg.window < 1 {
      assert callers == {};
    } else {
      WithinBound(cfg, s, t);
      DuringWithin(cfg, s, t);
    }
  }

  lemma WithinBound(cfg: Config, s: State, t: int)
    requires Inv(cfg, s) && cfg.limit >= 1 && cfg.window >= 1
    ensures |Within(s.hits, t as real, (1000 * cfg.window) as real)| <= 2 * cfg.limit - 1
  {
    hide CountsApart, EachBegan, Guarded, Clocked, Answers, Recorded, Within;
    SlidingBound(s.hits, cfg.limit, (1000 * cfg.window) as real, t as real);
  }

  lemma DuringWithin(cfg: Config, s: State, t: int)
    requires Inv(cfg, s)
    ensures |AllowedDuring(cfg, s, t)| <= |Within(s.hits, t as real, (1000 * cfg.window) as real)|
  {
    hide CountsApart, EachBegan, Guarded, Clocked, Spread;
    var callers, indices := AllowedDuring(cfg, s, t), Within(s.hits, t as real, (1000 * cfg.window) as real);
    forall c | c in callers ensures exists i :: i in indices && s.admitted[i] == c {
      assert c in s.admitted;
      var i :| 0 <= i < |s.admitted| && s.admitted[i] == c;
      assert i in indices;
    }
    Images(callers, indices, s.admitted);
  }

  // ---------- the bound is attained ----------

  /** When the calls of the tight schedule come: one at 0, the rest of the first window just before its end, and the next
      window's at its beginning. */
  function CallTime(cfg: Config, c: nat): int {
    if c == 0 then 0 else if c < cfg.limit then 1000 * cfg.window - 1 else 1000 * cfg.window
  }

  /** The first m clients have been allowed, each at its time. */
  ghost predicate AllAllowed(cfg: Config, s: State, m: nat) {
    && (forall c: nat :: c in s.clients <==> c < m)
    && forall c | 0 <= c < m :: s.clients[c].at == CallTime(cfg, c) && s.clients[c].phase == Answered(Decision(true, 0))
  }

  /** A call that creates the key. */
  lemma CreatingCall(cfg: Config, r: Run, m: nat) returns (r': Run)
    requires IsRun(cfg, r) && AllAllowed(cfg, Last(r), m) && !Last(r).present && Last(r).now == CallTime(cfg, m)
    requires cfg.limit >= 1 && cfg.window >= 1
    ensures IsRun(cfg, r') && AllAllowed(cfg, Last(r'), m + 1)
    ensures var s := Last(r');
      s.present && s.now == Last(r).now && s.count == 1 && s.deadline == Some(s.now + 1000 * cfg.window)
  {
    hide Linked, Then;
    r' := Then(cfg, r, Incr(m));
    r' := Then(cfg, r', Expire(m));
    r' := Then(cfg, r', Answer(m));
  }

  /** A further call within the limit. */
  lemma FurtherCall(cfg: Config, r: Run, m: nat) returns (r': Run)
    requires IsRun(cfg, r) && AllAllowed(cfg, Last(r), m) && Last(r).now == CallTime(cfg, m)
    requires var s := Last(r); s.present && 1 <= s.count < cfg.limit && !Overdue(s)
    ensures IsRun(cfg, r') && AllAllowed(cfg, Last(r'), m + 1)
    ensures var s, s' := Last(r), Last(r');
      s'.present && s'.now == s.now && s'.count == s.count + 1 && s'.deadline == s.deadline
  {
    hide Linked, Then;
    r' := Then(cfg, r, Incr(m));
    r' := Then(cfg, r', Answer(m));
  }

  lemma {:induction false} FurtherCalls(cfg: Config, r: Run, m: nat, n: nat) returns (r': Run)
    requires IsRun(cfg, r) && AllAllowed(cfg, Last(r), m)
    requires forall c | m <= c < m + n :: CallTime(cfg, c) == Last(r).now
    requires var s := Last(r); s.present && 1 <= s.count && s.count + n <= cfg.limit && !Overdue(s)
    ensures IsRun(cfg, r') && AllAllowed(cfg, Last(r'), m + n)
    ensures var s, s' := Last(r), Last(r'); s'.present && s'.now == s.now && s'.deadline == s.deadline
    decreases n
  {
    hide Linked, AllAllowed;
    if n == 0 {
      r' := r;
    } else {
      r' := FurtherCall(cfg, r, m);
      r' := FurtherCalls(cfg, r', m + 1, n - 1);
    }
  }

  /** For every limit and window there is a run in which 2 * limit - 1 calls are allowed within one window's length. */
  lemma BoundAttained(cfg: Config) returns (r: Run, t: int)
    requires cfg.limit >= 1 && cfg.window >= 1
    ensures IsRun(cfg, r) && |AllowedDuring(cfg, Last(r), t)| == 2 * cfg.limit - 1
  {
    hide Linked, Then;
    t := 1000 * cfg.window - 1;
    OnePath(cfg, Idle(0));
    assert Last(Start(Idle(0))) == Idle(0) && AllAllowed(cfg, Idle(0), 0);
    r := CreatingCall(cfg, Start(Idle(0)), 0);
    r := Then(cfg, r, Tick(t));
    r := FurtherCalls(cfg, r, 1, cfg.limit - 1);
    r := Then(cfg, r, Tick(t + 1));
    r := Then(cfg, r, Lapse);
    r := CreatingCall(cfg, r, cfg.limit);
    r := FurtherCalls(cfg, r, cfg.limit + 1, cfg.limit - 1);
    RangeSize(AllowedDuring(cfg, Last(r), t), 1, 2 * cfg.limit);
  }

  // ---------- how long a refused client is told to wait ----------

  /** With a deadline, the wait is what is left, give or take half a second, but never less than one second. */
  lemma RoundedWait(cfg: Config, s: State, count: nat)
    requires s.present && s.deadline.Some? && !Overdue(s) && count > cfg.limit
    ensures var retry, left := Decide(cfg, s, count).retryAfter, s.deadline.value - s.now;
      && (s.now + 1000 * retry >= s.deadline.value <==> !(left > 1000 && 0 < left % 1000 < 500))
      && left - 1000 * retry < 500
      && (retry == 1 || 1000 * retry - left <= 500)
  {
  }

  /** The key's lifetime in state s is over in s', or due to be. */
  predicate Freed(s: State, s': State) {
    !s'.present || s'.life > s.life || (s'.deadline.Some? && s'.now >= s'.deadline.value)
  }

  /** However the run goes on, a client that comes back after `wait` milliseconds does not meet the same lifetime. */
  ghost predicate Suffices(cfg: Config, s: State, wait: int) {
    forall r | IsPath(cfg, r) && r.states[0] == s && Last(r).now >= s.now + wait :: Freed(s, Last(r))
  }

  /** The lifetime goes on with the deadline it has, or is over. */
  predicate Keeps(s: State, s': State) {
    s'.life > s.life || (s'.life == s.life && (s'.present ==> s.present && s'.deadline == s.deadline))
  }

  lemma KeepsStep(cfg: Config, s: State, s': State, step: Step)
    requires Inv(cfg, s') && Enabled(cfg, s', step) && Keeps(s, s') && (s.present ==> s.deadline.Some?)
    ensures Keeps(s, After(cfg, s', step))
  {
    hide CountsApart, EachBegan, Answers, Recorded, Spread;
  }

  lemma {:induction false} KeepsPath(cfg: Config, r: Run, n: nat)
    requires IsPath(cfg, r) && n <= |r.steps| && Inv(cfg, r.states[0])
    requires r.states[0].present ==> r.states[0].deadline.Some?
    ensures Keeps(r.states[0], r.states[n])
  {
    hide Inv, After, Enabled;
    if n > 0 {
      KeepsPath(cfg, r, n - 1);
      PathKeepsInv(cfg, r, 0, n - 1);
      assert Linked(cfg, r, n - 1);
      KeepsStep(cfg, r.states[0], r.states[n - 1], r.steps[n - 1]);
    }
  }

  /** If nothing but time passes, the key is as it was. */
  lemma Idles(cfg: Config, s: State, wait: int)
    requires s.present && wait >= 0 && (s.deadline.Some? ==> s.now + wait < s.deadline.value)
    ensures !Suffices(cfg, s, wait)
  {
    hide Linked, Then;
    OnePath(cfg, s);
    var r := Then(cfg, Start(s), Tick(s.now + wait));
    assert IsPath(cfg, r) && r.states[0] == s && !Freed(s, Last(r));
  }

  /** When a refused client that waits as long as it was told meets a new lifetime of the key, whatever the other clients
      and the server do meanwhile: in every reachable state exactly if the key is gone, or it has a deadline and rounding
      took nothing off. A client refused before the key's EXPIRE is told one second, and that is not enough. */
  lemma WaitSufficesIff(cfg: Config, r: Run, n: nat, count: nat)
    requires IsRun(cfg, r) && n <= |r.steps| && !Overdue(r.states[n]) && count > cfg.limit
    ensures var s := r.states[n];
      Suffices(cfg, s, 1000 * Decide(cfg, s, count).retryAfter) <==>
        || !s.present
        || (s.deadline.Some? && var left := s.deadline.value - s.now; !(left > 1000 && 0 < left % 1000 < 500))
    ensures var s := r.states[n]; !s.present || s.deadline.None? ==> Decide(cfg, s, count).retryAfter == 1
  {
    Reaches(cfg, r, n);
    var s := r.states[n];
    var wait := 1000 * Decide(cfg, s, count).retryAfter;
    assert wait > 0;
    if s.present && s.deadline.Some? {
      RoundedWait(cfg, s, count);
    }
    if s.present && (s.deadline.None? || s.now + wait < s.deadline.value) {
      Idles(cfg, s, wait);
    } else {
      forall p | IsPath(cfg, p) && p.states[0] == s && Last(p).now >= s.now + wait ensures Freed(s, Last(p)) {
        KeepsPath(cfg, p, |p.steps|);
      }
    }
  }

  /** A window of two seconds or more: the second call is counted before the first one's EXPIRE, is refused and told one
      second, waits exactly that long and is refused again, now with all but that second of the window still to go. */
  lemma WaitBeforeExpire(window: int) returns (r: Run)
    requires window >= 2
    ensures IsRun(Config(1, window), r)
    ensures r.steps == [Incr(0), Incr(1), Answer(1), Expire(0), Answer(0), Tick(1000), Incr(2), Answer(2)]
    ensures var clients := Last(r).clients;
      && 1 in clients && clients[1].at == 0 && clients[1].phase == Answered(Decision(false, 1))
      && 2 in clients && clients[2].at == 1000 && clients[2].phase == Answered(Decision(false, window - 1))
  {
    hide Linked, Then;
    var cfg := Config(1, window);
    OnePath(cfg, Idle(0));
    r := Then(cfg, Then(cfg, Then(cfg, Start(Idle(0)), Incr(0)), Incr(1)), Answer(1));
    r := Then(cfg, Then(cfg, Then(cfg, r, Expire(0)), Answer(0)), Tick(1000));
    r := Then(cfg, Then(cfg, r, Incr(2)), Answer(2));
  }

  /** Limit 1 and a window of 2 seconds: a client refused at 600 ms is told 1 second, waits exactly that long and is
      refused again. */
  lemma EarlyWait() returns (r: Run)
    ensures IsRun(Config(1, 2), r)
    ensures r.steps == [Incr(0), Expire(0), Answer(0), Tick(600), Incr(1), Answer(1), Tick(1600), Incr(2), Answer(2)]
    ensures var clients := Last(r).clients;
      && 1 in clients && clients[1].at == 600 && clients[1].phase == Answered(Decision(false, 1))
      && 2 in clients && clients[2].at == 600 + 1000 * 1 && clients[2].phase == Answered(Decision(false, 1))
  {
    hide Linked, Then;
    var cfg := Config(1, 2);
    OnePath(cfg, Idle(0));
    r := Then(cfg, Then(cfg, Then(cfg, Start(Idle(0)), Incr(0)), Expire(0)), Answer(0));
    r := Then(cfg, Then(cfg, Then(cfg, r, Tick(600)), Incr(1)), Answer(1));
    r := Then(cfg, Then(cfg, Then(cfg, r, Tick(1600)), Incr(2)), Answer(2));
  }

  // ---------- when a key can lapse ----------

  /** The key has no deadline and no client is about to set one. */
  ghost predicate Stuck(s: State) {
    s.present && s.deadline.None? && forall c | SawOne(s, c, s.life) :: !s.clients[c].phase.Counting?
  }

  /** Some continuation drops the key. */
  ghost predicate CanLapse(cfg: Config, s: State) {
    exists r :: IsPath(cfg, r) && r.states[0] == s && !Last(r).present
  }

  lemma StuckStep(cfg: Config, s: State, step: Step)
    requires Inv(cfg, s) && Enabled(cfg, s, step) && Stuck(s)
    ensures var s' := After(cfg, s, step); Stuck(s') && s'.life == s.life && s'.count >= s.count
  {
    hide EachBegan, Answers, Recorded, Spread;
    var s' := After(cfg, s, step);
    forall c | SawOne(s', c, s'.life) ensures SawOne(s, c, s.life) {
      assert step.Incr? ==> c != step.c;
    }
  }

  lemma {:induction false} StuckPath(cfg: Config, r: Run, i: nat, n: nat)
    requires IsPath(cfg, r) && i <= n <= |r.steps| && Inv(cfg, r.states[i]) && Stuck(r.states[i])
    ensures Stuck(r.states[n]) && r.states[n].life == r.states[i].life && r.states[n].count >= r.states[i].count
  {
    hide Inv, Stuck, Enabled, After;
    if i < n {
      StuckPath(cfg, r, i, n - 1);
      PathKeepsInv(cfg, r, i, n - 1);
      assert Linked(cfg, r, n - 1);
      StuckStep(cfg, r.states[n - 1], r.steps[n - 1]);
    }
  }

  /** A key with a deadline lapses once the clock has reached it. */
  lemma LapsesAtDeadline(cfg: Config, r: Run) returns (r': Run)
    requires IsPath(cfg, r) && Last(r).present && Last(r).deadline.Some?
    ensures IsPath(cfg, r') && r'.states[0] == r.states[0] && !Last(r').present
  {
    hide Linked, Then;
    var s := Last(r);
    r' := Then(cfg, r, Tick(Max(s.now, s.deadline.value)));
    r' := Then(cfg, r', Lapse);
  }

  lemma CanLapseIfSet(cfg: Config, s: State)
    requires s.present && !Stuck(s) && Guarded(s)
    ensures CanLapse(cfg, s)
  {
    OnePath(cfg, s);
    var r := Start(s);
    if s.deadline.None? {
      var c :| SawOne(s, c, s.life) && s.clients[c].phase.Counting?;
      r := Then(cfg, r, Expire(c));
    }
    if Last(r).present {
      r := LapsesAtDeadline(cfg, r);
    }
    assert r.states[0] == s;
  }

  /** The exact condition for a key to lapse: in every reachable state, an existing key can still be dropped by some
      continuation if and only if it has a deadline or the client that saw 1 is still to issue its EXPIRE. */
  lemma LapsesIff(cfg: Config, r: Run, n: nat)
    requires IsRun(cfg, r) && n <= |r.steps| && r.states[n].present
    ensures CanLapse(cfg, r.states[n]) <==>
      || r.states[n].deadline.Some?
      || exists c :: SawOne(r.states[n], c, r.states[n].life) && r.states[n].clients[c].phase.Counting?
  {
    Reaches(cfg, r, n);
    var s := r.states[n];
    if Stuck(s) {
      forall p | IsPath(cfg, p) && p.states[0] == s ensures Last(p).present {
        StuckPath(cfg, p, 0, |p.steps|);
      }
    } else {
      CanLapseIfSet(cfg, s);
    }
  }

  /** If the client that saw 1 stops before its EXPIRE, then from that step on the key stays, without a deadline and in
      the same lifetime, and its count only grows. */
  lemma StuckForever(cfg: Config, r: Run, i: nat, c: nat, n: nat)
    requires IsRun(cfg, r) && i < n <= |r.steps| && r.steps[i] == Crash(c)
    requires c in r.states[i].clients && r.states[i].clients[c].count == 1 && r.states[i].clients[c].phase.Counting?
    ensures Stuck(r.states[n]) && !CanLapse(cfg, r.states[n])
    ensures r.states[n].life == r.states[i].life && r.states[n].count >= r.states[i].count
  {
    Reaches(cfg, r, i);
    assert Linked(cfg, r, i);
    CrashSticks(cfg, r.states[i], c);
    Reaches(cfg, r, i + 1);
    StuckPath(cfg, r, i + 1, n);
    LapsesIff(cfg, r, n);
  }

  lemma CrashSticks(cfg: Config, s: State, c: nat)
    requires Inv(cfg, s) && c in s.clients && s.clients[c].count == 1 && s.clients[c].phase.Counting?
    ensures Stuck(After(cfg, s, Crash(c)))
  {
    hide EachBegan, Answers, Recorded, Spread;
    var s' := After(cfg, s, Crash(c));
    forall k | SawOne(s', k, s'.life) ensures k == c {
    }
  }

  /** Two steps of one client are enough. */
  lemma StuckReached(cfg: Config, now: int, c: nat) returns (r: Run)
    ensures IsRun(cfg, r) && r.steps == [Incr(c), Crash(c)]
    ensures Stuck(Last(r)) && !CanLapse(cfg, Last(r))
  {
    OnePath(cfg, Idle(now));
    r := Then(cfg, Start(Idle(now)), Incr(c));
    r := Then(cfg, r, Crash(c));
    assert Linked(cfg, r, 0) && Linked(cfg, r, 1);
    StuckForever(cfg, r, 1, c, 2);
  }

  /** Once the limit is used up, every later call on a stuck key is refused. */
  lemma StuckRefuses(cfg: Config, r: Run, i: nat, n: nat, m: nat, c: nat)
    requires IsRun(cfg, r) && i <= n < m <= |r.steps| && Stuck(r.states[i]) && r.states[i].count >= cfg.limit
    requires r.steps[n] == Incr(c) && c in r.states[m].clients && r.states[m].clients[c].phase.Answered?
    ensures !r.states[m].clients[c].phase.decision.allowed
  {
    Reaches(cfg, r, i);
    StuckPath(cfg, r, i, n);
    assert Linked(cfg, r, n);
    CountStays(cfg, r, n + 1, m, c);
    AnswerBounds(cfg, r, m, c);
  }

  lemma {:induction false} CountStays(cfg: Config, r: Run, n: nat, m: nat, c: nat)
    requires IsRun(cfg, r) && n <= m <= |r.steps| && c in r.states[n].clients
    ensures c in r.states[m].clients && r.states[m].clients[c].count == r.states[n].clients[c].count
  {
    if n < m {
      CountStays(cfg, r, n, m - 1, c);
      assert Linked(cfg, r, m - 1);
    }
  }
}
