/** The limiter as the code runs it, one command to the server after the other, for any number of keys. Run without
    interruption, a call is the steps of one client of RedisLimiter. */
module RedisClient {
  import opened Wrappers
  import opened FixedWindows
  import opened RedisLimiter

  datatype Counter = Counter(value: nat, deadline: Option<int>)

  /** The server: counters by key, dropped when first touched after their deadline. */
  class RedisServer {
    var now: int
    var counters: map<string, Counter>

    constructor (now: int)
      ensures this.now == now && counters == map[]
    {
      this.now, counters := now, map[];
    }

    /** The server answers from a key until its deadline has passed. */
    predicate Live(key: string)
      reads this
    {
      key in counters && (counters[key].deadline.Some? ==> now <= counters[key].deadline.value)
    }

    /** The key as one state of the many-client machine. */
    ghost predicate Shows(key: string, s: State)
      reads this
    {
      && now == s.now && (Live(key) <==> s.present)
      && (s.present ==> counters[key] == Counter(s.count, s.deadline))
    }

    method Incr(key: string) returns (value: nat)
      modifies this`counters
      ensures value == if old(Live(key)) then old(counters[key].value) + 1 else 1
      ensures counters == old(counters)[key :=
        Counter(value, if old(Live(key)) then old(counters[key].deadline) else None)]
    {
      if Live(key) {
        value := counters[key].value + 1;
        counters := counters[key := Counter(value, counters[key].deadline)];
      } else {
        value := 1;
        counters := counters[key := Counter(1, None)];
      }
    }

    method Expire(key: string, seconds: int)
      modifies this`counters
      ensures counters ==
        if !old(Live(key)) then old(counters)
        else if seconds <= 0 then old(counters) - {key}
        else old(counters)[key := Counter(old(counters[key].value), Some(now + 1000 * seconds))]
    {
      if Live(key) {
        if seconds <= 0 {
          counters := counters - {key};
        } else {
          counters := counters[key := Counter(counters[key].value, Some(now + 1000 * seconds))];
        }
      }
    }

    method TimeToLive(key: string) returns (seconds: int)
      ensures forall s: State | Shows(key, s) :: seconds == Ttl(s)
    {
      if !Live(key) {
        seconds := -2;
      } else if counters[key].deadline.None? {
        seconds := -1;
      } else {
        seconds := (Max(0, counters[key].deadline.value - now) + 500) / 1000;
      }
    }
  }

  const KEY_PREFIX := "ratelimit"

  /** The server's key for a limiter key. */
  function RedisKey(key: string): string {
    KEY_PREFIX + ":" + key
  }

  /** Different keys are counted apart, and apart from whatever else the server holds under another prefix. */
  lemma KeysApart(key: string, other: string)
    ensures RedisKey(key) == RedisKey(other) ==> key == other
    ensures RedisKey(key) == "ratelimit:" + key
  {
    assert RedisKey(key)[|KEY_PREFIX| + 1..] == key;
    assert RedisKey(other)[|KEY_PREFIX| + 1..] == other;
  }

  /** The steps of a client that nobody interrupts. */
  function Alone(s: State, c: nat): seq<Step> {
    if s.present && s.count >= 1 then [Incr(c), Answer(c)] else [Incr(c), Expire(c), Answer(c)]
  }

  class RedisRateLimiter {
    const redis: RedisServer

    constructor (redis: RedisServer)
      ensures this.redis == redis
    {
      this.redis := redis;
    }

    /** The decision and the key that the machine's steps give; no other key changes. */
    method Check(key: string, limit: int, window: int, ghost s: State, ghost c: nat)
      returns (d: Decision, ghost path: Run)
      requires redis.Shows(RedisKey(key), s) && c !in s.clients && (s.present ==> s.count >= 1)
      modifies redis
      ensures IsPath(Config(limit, window), path) && path.states[0] == s && path.steps == Alone(s, c)
      ensures redis.Shows(RedisKey(key), Last(path))
      ensures c in Last(path).clients && Last(path).clients[c].phase == Answered(d)
      ensures forall other | other != RedisKey(key) :: other in redis.counters <==> other in old(redis.counters)
      ensures forall other | other != RedisKey(key) && other in redis.counters ::
        redis.counters[other] == old(redis.counters)[other]
    {
      hide Linked, Then;
      var redisKey := RedisKey(key);
      ghost var cfg := Config(limit, window);
      OnePath(cfg, s);
      var count := redis.Incr(redisKey);
      path := Then(cfg, Start(s), Incr(c));
      if count == 1 {
        redis.Expire(redisKey, window);
        path := Then(cfg, path, Expire(c));
      }
      assert redis.Shows(redisKey, Last(path));
      if count > limit {
        var ttl := redis.TimeToLive(redisKey);
        d := Decision(false, Max(ttl, 1));
      } else {
        d := Decision(true, 0);
      }
      path := Then(cfg, path, Answer(c));
    }
  }
}
