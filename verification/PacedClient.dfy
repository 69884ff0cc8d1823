/** The embedding client: requests spaced in time, retried a bounded number of times with bounded backoff. */
module PacedClient {
  import opened Text
  import opened Wrappers

  /** The Retry-After header: missing, a finite number of seconds, or text that is no number. */
  datatype RetryAfter = Absent | Seconds(value: real) | Unreadable

  /** What came of a response body: an embedding, or the code of a permanent error. */
  datatype Body = Embedding | Invalid(code: string)

  datatype Reply = Unavailable | TooLarge | Response(status: int, retryAfter: RetryAfter, body: Body)

  datatype EmbedError = InputBlank | RetryExhausted | HttpPermanent | Permanent(code: string)

  // ----- backoff -----

  function PowerOfTwo(k: nat): nat {
    if k == 0 then 1 else 2 * PowerOfTwo(k - 1)
  }

  function Backoff(header: RetryAfter, attempt: nat): real
    requires attempt >= 1
  {
    match header
    case Seconds(s) =>
      var atLeastZero := if s < 0.0 then 0.0 else s;
      if atLeastZero > 60.0 then 60.0 else atLeastZero
    case _ =>
      var p := PowerOfTwo(attempt - 1);
      (if p < 8 then p else 8) as real
  }

  lemma {:induction false} BackoffBounds(header: RetryAfter, attempt: nat)
    requires attempt >= 1
    ensures 0.0 <= Backoff(header, attempt) <= 60.0
  {}

  // ----- what one call amounts to -----

  predicate IsRetryable(r: Reply) {
    r.Unavailable? || (r.Response? && (r.status == 429 || 500 <= r.status <= 599))
  }

  function HeaderOf(r: Reply): RetryAfter {
    if r.Response? then r.retryAfter else Absent
  }

  /** The outcome of a call, the number of its posts and the backoffs it asks for. */
  datatype Trace = Trace(result: Result<nat, EmbedError>, posts: nat, delays: seq<real>)

  /** The verdict on a reply that is not retried. */
  function Final(r: Reply, retries: nat): Result<nat, EmbedError> {
    match r
    case TooLarge => Failure(Permanent("response_too_large"))
    case Unavailable => Failure(RetryExhausted)
    case Response(status, _, body) =>
      if status < 200 || status >= 300 then Failure(HttpPermanent)
      else if body.Invalid? then Failure(Permanent(body.code))
      else Success(retries)
  }

  /** A call from its given attempt on, when reply(n) answers the n-th post. */
  function Attempts(reply: nat -> Reply, post: nat, attempt: nat, max: nat, retries: nat): Trace
    requires 1 <= attempt <= max
    decreases max - attempt
  {
    var r := reply(post);
    if !IsRetryable(r) then Trace(Final(r, retries), 1, [])
    else if attempt == max then Trace(Failure(RetryExhausted), 1, [])
    else
      var rest := Attempts(reply, post + 1, attempt + 1, max, retries + 1);
      Trace(rest.result, rest.posts + 1, [Backoff(HeaderOf(r), attempt)] + rest.delays)
  }

  function Sum(s: seq<real>): real {
    if s == [] then 0.0 else Sum(s[..|s| - 1]) + s[|s| - 1]
  }

  lemma {:induction false} SumFirst(x: real, s: seq<real>)
    ensures Sum([x] + s) == x + Sum(s)
  {
    if s == [] {
      assert [x] + s == [x];
    } else {
      assert ([x] + s)[..|s|] == [x] + s[..|s| - 1];
      SumFirst(x, s[..|s| - 1]);
    }
  }

  /** A call posts at most `max` times and backs off once less; a success reports one retry less than posts;
      the total backoff stays within a minute for each retry that is allowed. */
  lemma {:induction false} AttemptsBounded(reply: nat -> Reply, post: nat, attempt: nat, max: nat, retries: nat)
    requires 1 <= attempt <= max
    ensures var t := Attempts(reply, post, attempt, max, retries);
      && 1 <= t.posts <= max - attempt + 1 && |t.delays| == t.posts - 1
      && (t.result.Success? ==> t.result.value == retries + t.posts - 1)
      && 0.0 <= Sum(t.delays) <= 60.0 * (t.posts - 1) as real
    decreases max - attempt
  {
    var r := reply(post);
    if IsRetryable(r) && attempt < max {
      AttemptsBounded(reply, post + 1, attempt + 1, max, retries + 1);
      BackoffBounds(HeaderOf(r), attempt);
      SumFirst(Backoff(HeaderOf(r), attempt), Attempts(reply, post + 1, attempt + 1, max, retries + 1).delays);
    }
  }

  /** Retries are exhausted exactly when every one of the allowed posts gets a retryable reply. */
  lemma {:induction false} ExhaustedExactly(reply: nat -> Reply, post: nat, attempt: nat, max: nat, retries: nat)
    requires 1 <= attempt <= max
    ensures Attempts(reply, post, attempt, max, retries).result == Failure(RetryExhausted) <==>
              forall n: nat | post <= n <= post + max - attempt :: IsRetryable(reply(n))
    decreases max - attempt
  {
    if IsRetryable(reply(post)) && attempt < max {
      ExhaustedExactly(reply, post + 1, attempt + 1, max, retries + 1);
    }
  }

  /** The trace of a whole call whose first post is the given one. */
  function CallTrace(reply: nat -> Reply, post: nat, max: nat): Trace
    requires max >= 1
  {
    Attempts(reply, post, 1, max, 0)
  }

  /** What a reply asks the caller to wait after the given attempt: the seconds of a readable Retry-After
      header, kept between nothing and a minute; without one 1, 2, 4 and from the fourth attempt on 8 seconds. */
  ghost predicate IsBackoff(r: Reply, attempt: nat, seconds: real) {
    if r.Response? && r.retryAfter.Seconds? then
      var asked := r.retryAfter.value;
      && (asked < 0.0 ==> seconds == 0.0) && (0.0 <= asked <= 60.0 ==> seconds == asked)
      && (asked > 60.0 ==> seconds == 60.0)
    else
      && (attempt == 1 ==> seconds == 1.0) && (attempt == 2 ==> seconds == 2.0) && (attempt == 3 ==> seconds == 4.0)
      && (attempt >= 4 ==> seconds == 8.0)
  }

  lemma {:induction false} PowersGrow(k: nat)
    ensures k >= 3 ==> PowerOfTwo(k) >= 8
  {
    if k > 3 {
      PowersGrow(k - 1);
    } else {
      assert PowerOfTwo(0) == 1 && PowerOfTwo(1) == 2 && PowerOfTwo(2) == 4 && PowerOfTwo(3) == 8;
    }
  }

  lemma {:induction false} BackoffIsExact(r: Reply, attempt: nat, seconds: real)
    requires attempt >= 1
    ensures IsBackoff(r, attempt, seconds) <==> seconds == Backoff(HeaderOf(r), attempt)
  {
    PowersGrow(attempt - 1);
    assert PowerOfTwo(0) == 1 && PowerOfTwo(1) == 2 && PowerOfTwo(2) == 4;
  }

  /** What the last reply makes of a call that has been retried `retries` times. */
  ghost predicate IsOutcome(last: Reply, retries: nat, result: Result<nat, EmbedError>) {
    if IsRetryable(last) then result == Failure(RetryExhausted)
    else if last.TooLarge? then result == Failure(Permanent("response_too_large"))
    else
      && (result.Success? <==> 200 <= last.status <= 299 && last.body.Embedding?)
      && (result == Failure(HttpPermanent) <==> !(200 <= last.status <= 299))
      && (200 <= last.status <= 299 && last.body.Invalid? ==> result == Failure(Permanent(last.body.code)))
      && (result.Success? ==> result.value == retries)
  }

  ghost predicate RetriedAt(reply: nat -> Reply, post: nat, attempt: nat, delays: seq<real>, k: nat)
    requires k < |delays|
  {
    IsRetryable(reply(post + k)) && IsBackoff(reply(post + k), attempt + k, delays[k])
  }

  /** Every reply that a delay follows is retryable, and the delay is the backoff it asks for. */
  ghost predicate Retried(reply: nat -> Reply, post: nat, attempt: nat, delays: seq<real>) {
    forall k | 0 <= k < |delays| :: RetriedAt(reply, post, attempt, delays, k)
  }

  /** A call posts until a reply is not retryable or the attempts are used up: every reply but the last is
      retryable, each is answered by its own backoff, and the last one decides. */
  lemma {:induction false} AttemptsAreExact(reply: nat -> Reply, post: nat, attempt: nat, max: nat, retries: nat)
    requires 1 <= attempt <= max
    ensures var t := Attempts(reply, post, attempt, max, retries);
      && 1 <= t.posts <= max - attempt + 1 && |t.delays| == t.posts - 1
      && Retried(reply, post, attempt, t.delays)
      && (IsRetryable(reply(post + t.posts - 1)) ==> t.posts == max - attempt + 1)
      && IsOutcome(reply(post + t.posts - 1), retries + t.posts - 1, t.result)
    decreases max - attempt
  {
    hide IsBackoff, Retried;
    var r := reply(post);
    if IsRetryable(r) && attempt < max {
      hide IsRetryable, Final, IsOutcome;
      AttemptsAreExact(reply, post + 1, attempt + 1, max, retries + 1);
      BackoffIsExact(r, attempt, Backoff(HeaderOf(r), attempt));
      var rest := Attempts(reply, post + 1, attempt + 1, max, retries + 1);
      RetriedFirst(reply, post, attempt, Backoff(HeaderOf(r), attempt), rest.delays);
    } else {
      NothingRetried(reply, post, attempt);
    }
  }

  lemma {:induction false} NothingRetried(reply: nat -> Reply, post: nat, attempt: nat)
    ensures Retried(reply, post, attempt, [])
  {}

  lemma {:induction false} RetriedFirst(reply: nat -> Reply, post: nat, attempt: nat, first: real, rest: seq<real>)
    requires IsRetryable(reply(post)) && IsBackoff(reply(post), attempt, first)
    requires Retried(reply, post + 1, attempt + 1, rest)
    ensures Retried(reply, post, attempt, [first] + rest)
  {
    hide IsRetryable, IsBackoff;
    forall k | 0 <= k < 1 + |rest| ensures RetriedAt(reply, post, attempt, [first] + rest, k) {
      assert k > 0 ==> RetriedAt(reply, post + 1, attempt + 1, rest, k - 1);
    }
  }

  /** A call is at the given attempt, with `delays` behind it. */
  ghost predicate Continues(whole: Trace, reply: nat -> Reply, post: nat, attempt: nat, max: nat, delays: seq<real>) {
    && 1 <= attempt <= max
    && var rest := Attempts(reply, post, attempt, max, attempt - 1);
       whole == Trace(rest.result, attempt - 1 + rest.posts, delays + rest.delays)
  }

  lemma {:induction false} CallStarts(reply: nat -> Reply, post: nat, max: nat)
    requires max >= 1
    ensures Continues(CallTrace(reply, post, max), reply, post, 1, max, [])
    ensures var t := CallTrace(reply, post, max);
      && 1 <= t.posts <= max && (t.result.Success? ==> t.result.value == t.posts - 1)
      && Sum(t.delays) <= 60.0 * (max - 1) as real
  {
    AttemptsBounded(reply, post, 1, max, 0);
  }

  lemma {:induction false} CallRetries(whole: Trace, reply: nat -> Reply, post: nat, attempt: nat, max: nat,
                                       delays: seq<real>)
    requires Continues(whole, reply, post, attempt, max, delays) && IsRetryable(reply(post)) && attempt < max
    ensures Continues(whole, reply, post + 1, attempt + 1, max, delays + [Backoff(HeaderOf(reply(post)), attempt)])
  {
    var next := Attempts(reply, post + 1, attempt + 1, max, attempt);
    assert delays + ([Backoff(HeaderOf(reply(post)), attempt)] + next.delays) ==
             delays + [Backoff(HeaderOf(reply(post)), attempt)] + next.delays;
  }

  lemma {:induction false} CallEnds(whole: Trace, reply: nat -> Reply, post: nat, attempt: nat, max: nat,
                                    delays: seq<real>)
    requires Continues(whole, reply, post, attempt, max, delays) && (IsRetryable(reply(post)) ==> attempt == max)
    ensures whole == Trace(if IsRetryable(reply(post)) then Failure(RetryExhausted)
                           else Final(reply(post), attempt - 1), attempt, delays)
  {}

  // ----- clock and transport -----

  /** Time passes by itself between any two operations; a sleep lasts at least as long as asked. */
  class World {
    const reply: nat -> Reply
    const drift: nat -> real
    var now: real
    var ticks: nat
    var posts: nat

    ghost predicate Forward() {
      forall n: nat :: drift(n) >= 0.0
    }

    constructor (reply: nat -> Reply, drift: nat -> real)
      ensures this.reply == reply && this.drift == drift && posts == 0
    {
      this.reply, this.drift, now, ticks, posts := reply, drift, 0.0, 0, 0;
    }

    method Monotonic() returns (t: real)
      requires Forward()
      modifies this`now, this`ticks
      ensures t == now >= old(now)
    {
      now := now + drift(ticks);
      ticks := ticks + 1;
      t := now;
    }

    method Sleep(seconds: real)
      requires Forward() && seconds >= 0.0
      modifies this`now, this`ticks
      ensures now >= old(now) + seconds
    {
      now := now + seconds + drift(ticks);
      ticks := ticks + 1;
    }

    method Post() returns (r: Reply)
      requires Forward()
      modifies this`now, this`ticks, this`posts
      ensures r == reply(old(posts)) && posts == old(posts) + 1 && now >= old(now)
    {
      now := now + drift(ticks);
      ticks := ticks + 1;
      r := reply(posts);
      posts := posts + 1;
    }
  }

  // ----- the client -----

  ghost predicate Paced(starts: seq<real>, interval: real) {
    forall i, j | 0 <= i < |starts| && j == i + 1 < |starts| :: starts[j] - starts[i] >= interval
  }

  /** Over n spacings at least n intervals pass. */
  lemma {:induction false} PacedSpread(starts: seq<real>, interval: real, i: nat, n: nat)
    requires Paced(starts, interval) && i + n < |starts|
    ensures starts[i + n] - starts[i] >= n as real * interval
  {
    if n > 0 {
      PacedSpread(starts, interval, i, n - 1);
      assert starts[i + (n - 1)] + interval <= starts[i + n];
      assert n as real * interval == (n - 1) as real * interval + interval;
    }
  }

  class NcpEmbeddingClient {
    const world: World
    const minimumInterval: real
    const maxAttempts: nat
    var lastRequestStartedAt: Option<real>
    /** Every start the client has recorded. */
    ghost var starts: seq<real>

    ghost predicate Valid()
      reads this, world
    {
      && world.Forward() && minimumInterval >= 0.0 && maxAttempts >= 1
      && Paced(starts, minimumInterval)
      && (lastRequestStartedAt.None? <==> starts == [])
      && (starts != [] ==> lastRequestStartedAt == Some(starts[|starts| - 1]) && starts[|starts| - 1] <= world.now)
    }

    constructor (world: World, minimumInterval: real, maxAttempts: nat)
      requires world.Forward() && minimumInterval >= 0.0 && maxAttempts >= 1
      ensures Valid() && starts == [] && this.world == world && this.minimumInterval == minimumInterval
              && this.maxAttempts == maxAttempts
    {
      this.world, this.minimumInterval, this.maxAttempts := world, minimumInterval, maxAttempts;
      lastRequestStartedAt := None;
      starts := [];
    }

    /** Waits until the minimum interval since the last start has passed, and records a new start. */
    method PaceRequest()
      requires Valid()
      modifies this`lastRequestStartedAt, this`starts, world`now, world`ticks
      ensures Valid() && world.now >= old(world.now)
      ensures |starts| == |old(starts)| + 1 && old(starts) <= starts
    {
      var now := world.Monotonic();
      if lastRequestStartedAt.Some? {
        var remaining := minimumInterval - (now - lastRequestStartedAt.value);
        if remaining > 0.0 {
          world.Sleep(remaining);
          now := world.Monotonic();
        }
      }
      lastRequestStartedAt := Some(now);
      starts := starts + [now];
    }

    /** Posts until a reply is final or the attempts are used up. Every post has its own recorded start, all
        recorded starts stay at least the minimum interval apart, and blank text is refused unposted. */
    method Embed(text: string) returns (result: Result<nat, EmbedError>, ghost delays: seq<real>)
      requires Valid()
      modifies this`lastRequestStartedAt, this`starts, world
      ensures Valid() && old(starts) <= starts
      ensures Blank(text) ==> result == Failure(InputBlank) && world.posts == old(world.posts) && starts == old(starts)
      ensures !Blank(text) ==>
                var t := CallTrace(world.reply, old(world.posts), maxAttempts);
                && result == t.result && world.posts == old(world.posts) + t.posts && delays == t.delays
                && |starts| == |old(starts)| + t.posts
      ensures !Blank(text) ==> 1 <= world.posts - old(world.posts) <= maxAttempts
      ensures result.Success? ==> result.value == world.posts - old(world.posts) - 1
      ensures Sum(delays) <= 60.0 * (maxAttempts - 1) as real
      ensures world.now >= old(world.now) + Sum(delays)
    {
      hide CallTrace, Continues, Paced, Final, Blank;
      delays := [];
      if Blank(text) {
        return Failure(InputBlank), [];
      }
      var retries: nat := 0;
      ghost var whole := CallTrace(world.reply, world.posts, maxAttempts);
      CallStarts(world.reply, world.posts, maxAttempts);
      for attempt := 1 to maxAttempts + 1
        invariant retries == attempt - 1 && attempt <= maxAttempts
        invariant Valid() && old(starts) <= starts && |starts| == |old(starts)| + retries
        invariant world.posts == old(world.posts) + retries
        invariant world.now >= old(world.now) + Sum(delays)
        invariant Continues(whole, world.reply, world.posts, attempt, maxAttempts, delays)
      {
        PaceRequest();
        ghost var post := world.posts;
        var reply := world.Post();
        if !IsRetryable(reply) || attempt == maxAttempts {
          CallEnds(whole, world.reply, post, attempt, maxAttempts, delays);
          return if IsRetryable(reply) then Failure(RetryExhausted) else Final(reply, retries), delays;
        }
        var seconds := Backoff(HeaderOf(reply), attempt);
        BackoffBounds(HeaderOf(reply), attempt);
        CallRetries(whole, world.reply, post, attempt, maxAttempts, delays);
        world.Sleep(seconds);
        assert (delays + [seconds])[..|delays|] == delays;
        delays := delays + [seconds];
        retries := retries + 1;
      }
      assert false;
    }
  }
}
