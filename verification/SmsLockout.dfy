/** When a code that was just sent can be void before it is read: the counter of wrong guesses
    outlives the code it was counted for. */
module SmsLockout {
  import opened SmsScripts
  import opened SmsTheorems

  // ---- How long the counter lives ----

  /** The counter of p ends no later than a code sent with the last message would. */
  ghost predicate TryBound(cfg: Config, w: World, p: string) {
    p in w.redis.tries ==>
      && LastSent(w.log, p).At? && LastSent(w.log, p).index < |w.log|
      && w.redis.tries[p].until <= w.log[LastSent(w.log, p).index].time + cfg.codeTtl
  }

  /** While every stored code comes with a message, so does the bound of the present code. */
  lemma CodeBound(cfg: Config, w: World, p: string)
    requires Inv(cfg, w) && cfg.cooldown > 0 && p in w.redis.codes
    requires forall k :: 0 <= k < |w.log| && Stores(w.log[k], p) ==> SentTo(w.log[k], p)
    ensures LastSent(w.log, p).At? && LastSent(w.log, p).index < |w.log|
    ensures w.redis.codes[p].until <= w.log[LastSent(w.log, p).index].time + cfg.codeTtl
  {
    assert PhoneMirror(cfg, w, p);
    CurrentMeans(w.log, p);
    LastSentMeans(w.log, p);
    TimesOrdered(cfg, w.log, Current(w.log, p).index, LastSent(w.log, p).index);
  }

  ghost predicate StoresAreSent(log: seq<Entry>) {
    forall k, p :: 0 <= k < |log| && Stores(log[k], p) ==> SentTo(log[k], p)
  }

  ghost predicate Bounds(cfg: Config, w: World) {
    Inv(cfg, w) && StoresAreSent(w.log) && forall p :: TryBound(cfg, w, p)
  }

  /** The bound moves on with the last message, and the last message only moves on in time. */
  lemma BoundKept(cfg: Config, w: World, s: Redis, r: Entry, p: string)
    requires History(cfg, w.log) && TryBound(cfg, w, p) && (w.log != [] ==> w.log[|w.log| - 1].time <= r.time)
    requires p in s.tries ==> p in w.redis.tries && s.tries[p] == w.redis.tries[p]
    ensures TryBound(cfg, World(s, w.log + [r]), p)
  {
    PhoneNext(w.log, r, p);
    if p in s.tries {
      TimesOrdered(cfg, w.log, LastSent(w.log, p).index, |w.log| - 1);
    }
  }

  /** A wrong guess ties the counter to the present code. */
  lemma BoundTied(cfg: Config, w: World, s: Redis, r: Entry, p: string)
    requires Inv(cfg, w) && cfg.cooldown > 0 && StoresAreSent(w.log) && SaysWrong(r, p)
    requires p in w.redis.codes && p in s.tries && s.tries[p].until == w.redis.codes[p].until
    ensures TryBound(cfg, World(s, w.log + [r]), p)
  {
    PhoneNext(w.log, r, p);
    CodeBound(cfg, w, p);
  }

  lemma StepBound(cfg: Config, w: World, e: Event, p: string)
    requires Bounds(cfg, w) && cfg.cooldown > 0
    ensures TryBound(cfg, Next(cfg, w, e), p)
  {
    var w' := Next(cfg, w, e);
    assert TryBound(cfg, w, p);
    if !e.Tick? {
      var r := w'.log[|w.log|];
      if SaysWrong(r, p) {
        BoundTied(cfg, w, w'.redis, r, p);
      } else {
        BoundKept(cfg, w, w'.redis, r, p);
      }
    }
  }

  lemma StepStores(cfg: Config, w: World, e: Event)
    requires StoresAreSent(w.log) && cfg.cooldown > 0
    ensures StoresAreSent(Next(cfg, w, e).log)
  {}

  lemma StepBounds(cfg: Config, w: World, e: Event)
    requires Bounds(cfg, w) && cfg.cooldown > 0
    ensures Bounds(cfg, Next(cfg, w, e))
  {
    StepInv(cfg, w, e);
    StepStores(cfg, w, e);
    forall p {
      StepBound(cfg, w, e, p);
    }
  }

  lemma {:induction false} RunBounds(cfg: Config, w: World, es: seq<Event>)
    requires Bounds(cfg, w) && cfg.cooldown > 0
    ensures Bounds(cfg, Run(cfg, w, es))
    decreases |es|
  {
    if es != [] {
      StepBounds(cfg, w, es[0]);
      RunBounds(cfg, Next(cfg, w, es[0]), es[1..]);
    }
  }

  // ---- Reaching a lockout ----

  /** In this state a message goes out, and its code, entered at once, is void. */
  ghost predicate VoidUnread(cfg: Config, s: Redis, p: string, d: string, code: string, dailyTtl: Seconds) {
    && Send(cfg, s, p, d, code, dailyTtl).1.Sent?
    && Verify(cfg, Send(cfg, s, p, d, code, dailyTtl).0, p, code).1 == Voided
  }

  ghost predicate Reached(cfg: Config, now: int, es: seq<Event>, p: string, d: string, code: string, dailyTtl: Seconds) {
    VoidUnread(cfg, Run(cfg, Fresh(now), es).redis, p, d, code, dailyTtl)
  }

  predicate CanLockOut(cfg: Config) {
    cfg.codeTtl > 0 && cfg.cooldown > 0 && cfg.dailyLimit > 0 && (cfg.maxAttempts <= 0 || cfg.cooldown < cfg.codeTtl)
  }

  lemma LockoutNeeds(cfg: Config, now: int, es: seq<Event>, p: string, d: string, code: string, dailyTtl: Seconds)
    requires Reached(cfg, now, es, p, d, code, dailyTtl)
    ensures CanLockOut(cfg)
  {
    var w := Run(cfg, Fresh(now), es);
    FreshCodeAccepted(cfg, w.redis, p, d, code, dailyTtl);
    if cfg.maxAttempts > 0 {
      RunBounds(cfg, Fresh(now), es);
      assert TryBound(cfg, w, p) && PhoneMirror(cfg, w, p);
    }
  }

  function Guesses(p: string, input: string, k: nat): seq<Event> {
    if k == 0 then [] else [AskVerify(p, input)] + Guesses(p, input, k - 1)
  }

  lemma {:induction false} GuessesCount(cfg: Config, w: World, p: string, input: string, k: nat)
    requires CodeLive(w.redis, p) && w.redis.codes[p].code != input && Tries(w.redis, p) + k <= cfg.maxAttempts
    ensures var s := Run(cfg, w, Guesses(p, input, k)).redis;
      && s.now == w.redis.now && s.codes == w.redis.codes && s.cooldowns == w.redis.cooldowns && s.days == w.redis.days
      && Tries(s, p) == Tries(w.redis, p) + k
      && (k > 0 ==> p in s.tries && s.tries[p].until == s.codes[p].until)
    decreases k
  {
    if k > 0 {
      var e := AskVerify(p, input);
      assert Guesses(p, input, k)[1..] == Guesses(p, input, k - 1);
      GuessesCount(cfg, Next(cfg, w, e), p, input, k - 1);
    }
  }

  lemma {:induction false} RunAppend(cfg: Config, w: World, a: seq<Event>, b: seq<Event>)
    ensures Run(cfg, w, a + b) == Run(cfg, Run(cfg, w, a), b)
    decreases |a|
  {
    if a == [] {
      assert a + b == b;
    } else {
      assert (a + b)[1..] == a[1..] + b;
      RunAppend(cfg, Next(cfg, w, a[0]), a[1..], b);
    }
  }

  /** One message, as many wrong guesses as are allowed, and the cooldown waited out. */
  function Exhausted(cfg: Config, p: string): seq<Event>
    requires cfg.maxAttempts > 0 && cfg.cooldown > 0
  {
    [AskSend(p, "20250101", "123456", 1)] + (Guesses(p, "000000", cfg.maxAttempts) + [Tick(cfg.cooldown)])
  }

  /** After that the next message of the next day carries a code that is void. */
  lemma ExhaustedLocksOut(cfg: Config, now: int, p: string, code: string)
    requires CanLockOut(cfg) && cfg.maxAttempts > 0
    ensures Reached(cfg, now, Exhausted(cfg, p), p, "20250102", code, 1)
  {
    var ask, guesses, wait := AskSend(p, "20250101", "123456", 1), Guesses(p, "000000", cfg.maxAttempts), [Tick(cfg.cooldown)];
    var w1 := Next(cfg, Fresh(now), ask);
    assert w1.redis.codes[p] == Stored("123456", now + cfg.codeTtl);
    GuessesCount(cfg, w1, p, "000000", cfg.maxAttempts);
    RunAppend(cfg, w1, guesses, wait);
    var w2 := Run(cfg, w1, guesses);
    assert wait[1..] == [];
    assert Exhausted(cfg, p)[1..] == guesses + wait;
    var s := Run(cfg, Fresh(now), Exhausted(cfg, p)).redis;
    assert s == w2.redis.(now := now + cfg.cooldown);
    assert Used(s, p, "20250102") == 0;
    FreshCodeAccepted(cfg, s, p, "20250102", code, 1);
  }

  /** A code that was just sent can be void in some run exactly if messages can go out at all and
      either no guess is ever allowed or the cooldown is shorter than the life of a code. */
  lemma LockoutExact(cfg: Config, p: string, code: string)
    ensures (exists now, es, d, dailyTtl: Seconds :: Reached(cfg, now, es, p, d, code, dailyTtl)) <==> CanLockOut(cfg)
  {
    if now, es, d, dailyTtl: Seconds :| Reached(cfg, now, es, p, d, code, dailyTtl) {
      LockoutNeeds(cfg, now, es, p, d, code, dailyTtl);
    }
    if CanLockOut(cfg) {
      if cfg.maxAttempts <= 0 {
        FreshCodeAccepted(cfg, Fresh(0).redis, p, "20250101", code, 1);
        assert Reached(cfg, 0, [], p, "20250101", code, 1);
      } else {
        ExhaustedLocksOut(cfg, 0, p, code);
      }
    }
  }
}
