/** Request limits (vivacapi/core/limits.py): the bulk-upload size guard and the fixed-window
    rate limiter, with its bound over whole request traces. */
module Limits {
  import opened Wrappers
  import opened RedisKeys
  import opened RedisStore
  import Text

  const SPOTS_BULK_MAX_BYTES: nat := 5 * 1024 * 1024

  // ---------------------------------------------------------------- body size

  function Concat(chunks: seq<seq<bv8>>): seq<bv8> {
    if chunks == [] then [] else Concat(chunks[..|chunks| - 1]) + chunks[|chunks| - 1]
  }

  lemma {:induction false} PrefixIsShorter(chunks: seq<seq<bv8>>, i: nat)
    requires i <= |chunks|
    ensures |Concat(chunks[..i])| <= |Concat(chunks)|
  {
    if i < |chunks| {
      PrefixIsShorter(chunks[..|chunks| - 1], i);
      assert chunks[..|chunks| - 1][..i] == chunks[..i];
    } else {
      assert chunks[..i] == chunks;
    }
  }

  /** A request whose consumed body is put back for the JSON parser. */
  class Request {
    var body: Option<seq<bv8>>

    constructor ()
      ensures body == None
    {
      body := None;
    }

    /** `declared` is the Content-Length header when it is present and numeric; `stream` are
        the body chunks in arrival order. `taken` counts the chunks pulled from the stream. */
    method EnforceSpotsBulkSize(declared: Option<int>, stream: seq<seq<bv8>>) returns (ok: bool, taken: nat)
      modifies this
      ensures ok <==> (declared.Some? ==> declared.value <= 5 * 1024 * 1024) && |Concat(stream)| <= 5 * 1024 * 1024
      ensures body == if ok then Some(Concat(stream)) else old(body)
      ensures taken <= |stream|
      ensures !ok && taken > 0 ==>
        |Concat(stream[..taken - 1])| <= SPOTS_BULK_MAX_BYTES < |Concat(stream[..taken])|
    {
      taken := 0;
      if declared.Some? && declared.value > SPOTS_BULK_MAX_BYTES {
        return false, 0;
      }
      var chunks: seq<bv8> := [];
      var received := 0;
      while taken < |stream|
        invariant taken <= |stream|
        invariant chunks == Concat(stream[..taken])
        invariant received == |chunks| <= SPOTS_BULK_MAX_BYTES
      {
        var chunk := stream[taken];
        received := received + |chunk|;
        taken := taken + 1;
        assert stream[..taken][..taken - 1] == stream[..taken - 1];
        if received > SPOTS_BULK_MAX_BYTES {
          PrefixIsShorter(stream, taken);
          return false, taken;
        }
        chunks := chunks + chunk;
      }
      assert stream[..taken] == stream;
      body := Some(chunks);
      return true, taken;
    }
  }

  // ---------------------------------------------------------------- one counter

  /** A counter and the time at which its key expires. */
  datatype Window = Window(count: nat, deadline: nat)

  /** One INCR + EXPIRE NX. */
  function Hit(window: Option<Window>, now: nat, seconds: nat): Window {
    if window.Some? && now < window.value.deadline then
      Window(window.value.count + 1, window.value.deadline)
    else
      Window(1, now + seconds)
  }

  function WindowAt<B>(store: Store<B>, key: string): Option<Window> {
    if key in store && store[key].value.Counter? && store[key].deadline.Some? then
      Some(Window(store[key].value.n, store[key].deadline.value))
    else
      None
  }

  datatype Actor = User(uid: string) | Ip(host: string) | NoClient

  function ActorName(actor: Actor): string
    requires !actor.NoClient?
  {
    if actor.User? then "u:" + actor.uid else "ip:" + actor.host
  }

  /** Two scopes or two actors never share a counter: user and address names cannot be confused,
      whatever characters they contain, and scopes are names without a colon. */
  lemma CountersAreSeparate(s: string, a: Actor, t: string, b: Actor)
    requires !a.NoClient? && !b.NoClient? && Text.Free(s, ':') && Text.Free(t, ':')
    requires RateLimitKey(s, ActorName(a)) == RateLimitKey(t, ActorName(b))
    ensures s == t && a == b
  {
    var x, y := ActorName(a), ActorName(b);
    assert RateLimitKey(s, x) == "ratelimit:" + (s + [':'] + x);
    assert RateLimitKey(t, y) == "ratelimit:" + (t + [':'] + y);
    Text.CutPrefix("ratelimit:", s + [':'] + x, t + [':'] + y);
    Text.CutFirst(s, ':', x, t, y);
    assert x[0] == if a.User? then 'u' else 'i';
    assert y[0] == if b.User? then 'u' else 'i';
    if a.User? {
      Text.CutPrefix("u:", a.uid, b.uid);
    } else {
      Text.CutPrefix("ip:", a.host, b.host);
    }
  }

  /** The dependency built by `rate_limit(scope, times, seconds)`. It lets a request without
      a client address through, and every request when Redis is down. */
  class RateLimit<B(==)> {
    const client: Client<B>
    const scope: string
    const times: nat
    const seconds: nat

    constructor (client: Client<B>, scope: string, times: nat, seconds: nat)
      ensures this.client == client && this.scope == scope
      ensures this.times == times && this.seconds == seconds
    {
      this.client, this.scope, this.times, this.seconds := client, scope, times, seconds;
    }

    method Admit(actor: Actor, now: nat, up: bool) returns (admitted: bool)
      requires seconds > 0
      requires !actor.NoClient? ==>
        var key := RateLimitKey(scope, ActorName(actor));
        key in client.store ==> WindowAt(client.store, key).Some?
      modifies client
      ensures actor.NoClient? || !up ==> admitted && client.store == old(client.store)
      ensures !actor.NoClient? && up ==>
        var key := RateLimitKey(scope, ActorName(actor));
        && OnlyChanges(old(client.store), client.store, key)
        && WindowAt(client.store, key) == Some(Hit(old(WindowAt(client.store, key)), now, seconds))
        && (admitted <==> WindowAt(client.store, key).value.count <= times)
      ensures Text.Free(scope, ':') ==>
        forall s, a: Actor :: Text.Free(s, ':') && !a.NoClient? && (s != scope || a != actor) ==>
          var other := RateLimitKey(s, ActorName(a));
          WindowAt(client.store, other) == old(WindowAt(client.store, other))
    {
      ghost var before := client.store;
      if actor.NoClient? {
        return true;
      }
      var count := client.IncrWithTtl(RateLimitKey(scope, ActorName(actor)), seconds, now, up);
      admitted := count.None? || count.value <= times;
      forall s, a: Actor | Text.Free(scope, ':') && Text.Free(s, ':') && !a.NoClient? && (s != scope || a != actor)
        ensures var other := RateLimitKey(s, ActorName(a));
                WindowAt(client.store, other) == WindowAt(before, other)
      {
        var other := RateLimitKey(s, ActorName(a));
        if other == RateLimitKey(scope, ActorName(actor)) {
          CountersAreSeparate(s, a, scope, actor);
        }
        assert other in client.store - {RateLimitKey(scope, ActorName(actor))} <==> other in client.store;
        assert other in before - {RateLimitKey(scope, ActorName(actor))} <==> other in before;
      }
    }
  }

  // ---------------------------------------------------------------- traces

  /** The counter after requests at the given times. */
  function After(trace: seq<nat>, seconds: nat): Option<Window> {
    if trace == [] then None
    else Some(Hit(After(trace[..|trace| - 1], seconds), trace[|trace| - 1], seconds))
  }

  /** Whether the last request of a trace is admitted. */
  predicate LastAdmitted(trace: seq<nat>, times: nat, seconds: nat)
    requires trace != []
  {
    After(trace, seconds).value.count <= times
  }

  predicate Admitted(trace: seq<nat>, i: nat, times: nat, seconds: nat)
    requires i < |trace|
  {
    LastAdmitted(trace[..i + 1], times, seconds)
  }

  /** How many requests with a time in [from, to) are admitted. */
  function AdmittedIn(trace: seq<nat>, from: nat, to: nat, times: nat, seconds: nat): nat {
    if trace == [] then 0
    else
      AdmittedIn(trace[..|trace| - 1], from, to, times, seconds)
      + if from <= trace[|trace| - 1] < to && LastAdmitted(trace, times, seconds) then 1 else 0
  }

  predicate Nondecreasing(trace: seq<nat>) {
    forall i, j :: 0 <= i < j < |trace| ==> trace[i] <= trace[j]
  }

  function Min(a: nat, b: nat): nat {
    if a <= b then a else b
  }

  lemma {:induction false} NoneBefore(trace: seq<nat>, from: nat, to: nat, times: nat, seconds: nat)
    requires forall i :: 0 <= i < |trace| ==> trace[i] < from
    ensures AdmittedIn(trace, from, to, times, seconds) == 0
  {
    if trace != [] {
      NoneBefore(trace[..|trace| - 1], from, to, times, seconds);
    }
  }

  /** `j` windows have opened at or after `from`; they open at least `seconds` apart, and a
      window that opened earlier has spent its first admission before `from`. */
  lemma {:induction false} Budget(trace: seq<nat>, from: nat, to: nat, times: nat, seconds: nat) returns (j: nat)
    requires Nondecreasing(trace) && trace != [] && times >= 1
    requires forall i :: 0 <= i < |trace| ==> trace[i] < to
    ensures After(trace, seconds).value.count >= 1
    ensures seconds <= After(trace, seconds).value.deadline <= trace[|trace| - 1] + seconds
    ensures var w := After(trace, seconds).value;
            var n := AdmittedIn(trace, from, to, times, seconds);
            if j == 0 then n <= Min(w.count, times) - 1
            else w.deadline >= from + j * seconds && n <= j * times - 1 + Min(w.count, times)
  {
    var n := |trace| - 1;
    var t, before := trace[n], trace[..n];
    if n == 0 {
      assert AdmittedIn(before, from, to, times, seconds) == 0;
      if t < from {
        j := 0;
      } else {
        j := 1;
      }
    } else {
      j := Budget(before, from, to, times, seconds);
      var w := After(before, seconds).value;
      if t >= w.deadline {
        if t < from {
          NoneBefore(trace, from, to, times, seconds);
          j := 0;
        } else {
          assert j * times + times == (j + 1) * times && j * seconds + seconds == (j + 1) * seconds;
          j := j + 1;
        }
      }
    }
  }

  /** The limiter's bound: for any trace on one key, any half-open interval as long as `k`
      windows admits fewer than (k + 1) * times requests. With k = 1 this is the "up to
      twice the limit" that the source accepts at a window boundary. */
  lemma {:induction false} FewerThanKPlusOneLimits(
    trace: seq<nat>, from: nat, k: nat, times: nat, seconds: nat)
    requires Nondecreasing(trace) && times >= 1 && k >= 1
    ensures AdmittedIn(trace, from, from + k * seconds, times, seconds) < (k + 1) * times
  {
    var to := from + k * seconds;
    assert (k + 1) * times == k * times + times && (k + 1) * seconds == k * seconds + seconds;
    if trace != [] {
      var n := |trace| - 1;
      if trace[n] >= to {
        FewerThanKPlusOneLimits(trace[..n], from, k, times, seconds);
      } else {
        var j := Budget(trace, from, to, times, seconds);
        if j > k {
          Scale(k + 1, j, seconds);
        } else {
          Scale(j, k, times);
        }
      }
    }
  }

  lemma Scale(a: nat, b: nat, c: nat)
    requires a <= b
    ensures a * c <= b * c
  {
  }

  // ---------------------------------------------------------------- tightness

  function Burst(t: nat, n: nat): seq<nat> {
    seq(n, _ => t)
  }

  /** `n` requests at one moment inside the window of the last one. */
  lemma {:induction false} BurstCounts(head: seq<nat>, t: nat, n: nat, from: nat, to: nat, times: nat, seconds: nat)
    requires After(head, seconds).Some? && t < After(head, seconds).value.deadline
    requires After(head, seconds).value.count + n <= times
    ensures After(head + Burst(t, n), seconds)
            == Some(Window(After(head, seconds).value.count + n, After(head, seconds).value.deadline))
    ensures AdmittedIn(head + Burst(t, n), from, to, times, seconds)
            == AdmittedIn(head, from, to, times, seconds) + if from <= t < to then n else 0
  {
    var trace := head + Burst(t, n);
    if n == 0 {
      assert trace == head;
    } else {
      assert trace[..|trace| - 1] == head + Burst(t, n - 1);
      BurstCounts(head, t, n - 1, from, to, times, seconds);
    }
  }

  /** A window opens as soon as the one before it ends, and is used up at once. */
  lemma NextWindow(trace: seq<nat>, t: nat, from: nat, to: nat, times: nat, seconds: nat) returns (longer: seq<nat>)
    requires times >= 1 && seconds >= 1 && from <= t < to && trace != []
    requires Nondecreasing(trace) && trace[|trace| - 1] <= t
    requires After(trace, seconds).Some? && After(trace, seconds).value.deadline == t
    ensures longer != [] && Nondecreasing(longer) && longer[|longer| - 1] == t
    ensures After(longer, seconds) == Some(Window(times, t + seconds))
    ensures AdmittedIn(longer, from, to, times, seconds) == AdmittedIn(trace, from, to, times, seconds) + times
  {
    var reopened := trace + [t];
    assert reopened[..|trace|] == trace;
    assert After(reopened, seconds) == Some(Window(1, t + seconds));
    BurstCounts(reopened, t, times - 1, from, to, times, seconds);
    longer := reopened + Burst(t, times - 1);
  }

  lemma FirstWindow(from: nat, to: nat, times: nat, seconds: nat) returns (trace: seq<nat>)
    requires times >= 1 && seconds >= 2 && from == seconds - 1 && to >= seconds
    ensures trace != [] && Nondecreasing(trace) && trace[|trace| - 1] < seconds
    ensures After(trace, seconds) == Some(Window(times, seconds))
    ensures AdmittedIn(trace, from, to, times, seconds) == times - 1
  {
    assert [0][..0] == [];
    assert After([0], seconds) == Some(Window(1, seconds));
    assert AdmittedIn([0], from, to, times, seconds) == 0;
    BurstCounts([0], seconds - 1, times - 1, from, to, times, seconds);
    trace := [0] + Burst(seconds - 1, times - 1);
  }

  /** The first window, opened early and used up late, and then `k` more. */
  lemma {:induction false} Windows(k: nat, from: nat, to: nat, times: nat, seconds: nat) returns (trace: seq<nat>)
    requires times >= 1 && seconds >= 2 && from == seconds - 1 && to >= seconds && to > k * seconds
    ensures trace != [] && Nondecreasing(trace) && trace[|trace| - 1] < k * seconds + seconds
    ensures After(trace, seconds) == Some(Window(times, k * seconds + seconds))
    ensures AdmittedIn(trace, from, to, times, seconds) == k * times + times - 1
  {
    if k == 0 {
      trace := FirstWindow(from, to, times, seconds);
    } else {
      Distribute(k - 1, seconds);
      Distribute(k - 1, times);
      trace := Windows(k - 1, from, to, times, seconds);
      trace := NextWindow(trace, k * seconds, from, to, times, seconds);
    }
  }

  lemma Distribute(a: nat, b: nat)
    ensures (a + 1) * b == a * b + b && a * b >= 0
  {
  }

  /** The bound is met with equality: for every limit and every k there is a trace that gets
      (k + 1) * times - 1 requests through within k window lengths. */
  lemma BoundIsTight(k: nat, times: nat, seconds: nat) returns (trace: seq<nat>, from: nat)
    requires k >= 1 && times >= 1 && seconds >= 2
    ensures Nondecreasing(trace)
    ensures AdmittedIn(trace, from, from + k * seconds, times, seconds) == (k + 1) * times - 1
  {
    from := seconds - 1;
    Distribute(k - 1, seconds);
    Distribute(k, times);
    trace := Windows(k, from, from + k * seconds, times, seconds);
  }

  // ---------------------------------------------------------------- refused requests

  /** The trace without its refused requests. */
  function Kept(trace: seq<nat>, times: nat, seconds: nat): seq<nat> {
    if trace == [] then []
    else
      var before := Kept(trace[..|trace| - 1], times, seconds);
      if LastAdmitted(trace, times, seconds) then before + [trace[|trace| - 1]] else before
  }

  /** Refused requests change nothing for later ones: without them the window ends at the
      same time and has admitted the same requests. */
  lemma {:induction false} RefusedRequestsAreInert(trace: seq<nat>, times: nat, seconds: nat)
    requires times >= 1
    ensures var kept := Kept(trace, times, seconds);
            && Kept(kept, times, seconds) == kept
            && match After(trace, seconds)
               case None => After(kept, seconds) == None
               case Some(w) => After(kept, seconds) == Some(Window(Min(w.count, times), w.deadline))
  {
    if trace != [] {
      var before, t := trace[..|trace| - 1], trace[|trace| - 1];
      RefusedRequestsAreInert(before, times, seconds);
      var kept := Kept(before, times, seconds);
      assert (kept + [t])[..|kept|] == kept;
    }
  }

  /** A refusal names its window: some earlier request `j` was admitted, opened it less than
      `seconds` ago, and the first request made `seconds` or more after `j` is admitted. */
  lemma RefusedOnlyUntilWindowEnds(trace: seq<nat>, i: nat, times: nat, seconds: nat) returns (j: nat)
    requires Nondecreasing(trace) && times >= 1 && i < |trace| && !Admitted(trace, i, times, seconds)
    ensures j < i && Admitted(trace, j, times, seconds)
    ensures trace[j] <= trace[i] < trace[j] + seconds
    ensures forall m :: i < m < |trace| && trace[m] >= trace[j] + seconds && trace[m - 1] < trace[j] + seconds ==>
              Admitted(trace, m, times, seconds)
  {
    j := Opener(trace[..i + 1], times, seconds);
    assert trace[..i + 1][..j + 1] == trace[..j + 1];
    assert trace[..i + 1] == trace[..i] + [trace[i]];
    var deadline := trace[j] + seconds;
    forall m | i < m < |trace| && trace[m] >= deadline && trace[m - 1] < deadline
      ensures Admitted(trace, m, times, seconds)
    {
      SameWindow(trace, i, m - 1, deadline, seconds);
      assert trace[..m + 1][..m] == trace[..m - 1 + 1];
    }
  }

  lemma {:induction false} Opener(trace: seq<nat>, times: nat, seconds: nat) returns (j: nat)
    requires trace != [] && times >= 1
    ensures j < |trace| && LastAdmitted(trace[..j + 1], times, seconds)
    ensures After(trace, seconds).value.deadline == trace[j] + seconds
    ensures After(trace, seconds).value.count == 1 <==> j == |trace| - 1
    ensures j < |trace| - 1 ==> trace[|trace| - 1] < trace[j] + seconds
  {
    var before, t := trace[..|trace| - 1], trace[|trace| - 1];
    var w := After(before, seconds);
    if w.Some? && t < w.value.deadline {
      j := Opener(before, times, seconds);
      assert before[..j + 1] == trace[..j + 1];
    } else {
      j := |trace| - 1;
      assert trace[..j + 1] == trace;
    }
  }

  lemma {:induction false} SameWindow(trace: seq<nat>, i: nat, m: nat, deadline: nat, seconds: nat)
    requires Nondecreasing(trace) && i <= m < |trace| && trace[m] < deadline
    requires After(trace[..i + 1], seconds).value.deadline == deadline
    ensures After(trace[..m + 1], seconds).value.deadline == deadline
    decreases m
  {
    if i < m {
      SameWindow(trace, i, m - 1, deadline, seconds);
      assert trace[..m + 1][..m] == trace[..m - 1 + 1];
    }
  }

  // ---------------------------------------------------------------- many actors

  /** A request of an actor to an endpoint with a limit, that reaches Redis. */
  datatype Event = Event(scope: string, actor: Actor, at: nat)

  predicate Counted(events: seq<Event>) {
    forall e :: e in events ==> Text.Free(e.scope, ':') && !e.actor.NoClient?
  }

  function KeyOf(scope: string, actor: Actor): string
    requires !actor.NoClient?
  {
    RateLimitKey(scope, ActorName(actor))
  }

  /** The counters in Redis after a trace of requests; `seconds` gives each scope its window
      length. */
  function Replay(events: seq<Event>, seconds: string -> nat): map<string, Window>
    requires Counted(events)
  {
    if events == [] then map[]
    else
      var windows := Replay(events[..|events| - 1], seconds);
      var e := events[|events| - 1];
      var key := KeyOf(e.scope, e.actor);
      windows[key := Hit(if key in windows then Some(windows[key]) else None, e.at, seconds(e.scope))]
  }

  function TimesOf(events: seq<Event>, scope: string, actor: Actor): seq<nat> {
    if events == [] then []
    else
      var e := events[|events| - 1];
      TimesOf(events[..|events| - 1], scope, actor) + if e.scope == scope && e.actor == actor then [e.at] else []
  }

  /** The counter of an actor in a scope is what its own requests there make it. */
  ghost predicate OwnCounter(events: seq<Event>, scope: string, actor: Actor, seconds: string -> nat)
    requires Counted(events) && !actor.NoClient?
  {
    var key, own := KeyOf(scope, actor), TimesOf(events, scope, actor);
    && (key in Replay(events, seconds) <==> own != [])
    && (own != [] ==> After(own, seconds(scope)) == Some(Replay(events, seconds)[key]))
  }

  lemma OwnRequest(events: seq<Event>, scope: string, actor: Actor, seconds: string -> nat)
    requires events != [] && Counted(events) && !actor.NoClient?
    requires events[|events| - 1].scope == scope && events[|events| - 1].actor == actor
    requires Counted(events[..|events| - 1]) && OwnCounter(events[..|events| - 1], scope, actor, seconds)
    ensures OwnCounter(events, scope, actor, seconds)
  {
    var before, at := TimesOf(events[..|events| - 1], scope, actor), events[|events| - 1].at;
    assert TimesOf(events, scope, actor) == before + [at] && (before + [at])[..|before|] == before;
  }

  lemma OthersRequest(events: seq<Event>, scope: string, actor: Actor, seconds: string -> nat)
    requires events != [] && Counted(events) && Text.Free(scope, ':') && !actor.NoClient?
    requires events[|events| - 1].scope != scope || events[|events| - 1].actor != actor
    requires Counted(events[..|events| - 1]) && OwnCounter(events[..|events| - 1], scope, actor, seconds)
    ensures OwnCounter(events, scope, actor, seconds)
  {
    var e := events[|events| - 1];
    assert e in events;
    if KeyOf(e.scope, e.actor) == KeyOf(scope, actor) {
      CountersAreSeparate(e.scope, e.actor, scope, actor);
    }
    assert TimesOf(events, scope, actor) == TimesOf(events[..|events| - 1], scope, actor);
  }

  /** Actors and scopes do not affect each other: under any interleaving, the counter of an actor
      in a scope is what the actor's own requests there alone make it, so the bounds above hold
      for each of them. */
  lemma {:induction false} ActorsAreIndependent(
    events: seq<Event>, scope: string, actor: Actor, seconds: string -> nat)
    requires Counted(events) && Text.Free(scope, ':') && !actor.NoClient?
    ensures OwnCounter(events, scope, actor, seconds)
  {
    if events != [] {
      ActorsAreIndependent(events[..|events| - 1], scope, actor, seconds);
      if events[|events| - 1].scope == scope && events[|events| - 1].actor == actor {
        OwnRequest(events, scope, actor, seconds);
      } else {
        OthersRequest(events, scope, actor, seconds);
      }
    }
  }
}
