/** What the two scripts answer, from nothing but the settings, the time and what was asked and
    answered before. */
module SmsExact {
  import opened SmsScripts
  import opened SmsTheorems

  // ---- Sends ----

  /** A message went to p less than a cooldown ago. */
  ghost predicate Recent(cfg: Config, log: seq<Entry>, p: string, now: int) {
    exists i :: 0 <= i < |log| && SentTo(log[i], p) && now < log[i].time + cfg.cooldown
  }

  /** How many messages went to p for day d on the quota key that is alive now. */
  function OnLiveQuota(log: seq<Entry>, p: string, d: string, now: int): nat {
    match DayStart(log, p, d)
    case Nowhere => 0
    case At(i) =>
      if i < |log| && log[i].SendEntry? && now < log[i].time + log[i].dailyTtl then Sends(log, p, d, i, |log|) else 0
  }

  lemma UsedIsOnLiveQuota(cfg: Config, w: World, p: string, d: string)
    requires Inv(cfg, w)
    ensures Used(w.redis, p, d) == OnLiveQuota(w.log, p, d, w.redis.now)
  {
    assert DayMirror(w, p, d);
    DayStartMeans(w.log, p, d);
    if DayStart(w.log, p, d).At? {
      assert w.log[..|w.log|] == w.log;
      SendsAreDaySends(w.log, p, d, DayStart(w.log, p, d).index, |w.log|);
    }
  }

  lemma CoolingIsRecent(cfg: Config, w: World, p: string)
    requires Inv(cfg, w)
    ensures Cooling(w.redis, p) <==> Recent(cfg, w.log, p, w.redis.now)
    ensures Cooling(w.redis, p) ==>
      LastSent(w.log, p).At? && LastSent(w.log, p).index < |w.log|
      && w.redis.cooldowns[p] == w.log[LastSent(w.log, p).index].time + cfg.cooldown
  {
    assert PhoneMirror(cfg, w, p);
    LastSentMeans(w.log, p);
    if i :| 0 <= i < |w.log| && SentTo(w.log[i], p) && w.redis.now < w.log[i].time + cfg.cooldown {
      TimesOrdered(cfg, w.log, i, LastSent(w.log, p).index);
    }
  }

  /** The reply to an ask for a message, in every state of every run: refused with the rest of the
      cooldown if and only if a message went to the number less than a cooldown ago; refused for the
      quota if and only if not that, and `dailyLimit` messages went out on the live quota key;
      failed, after storing the code or before, if and only if neither and a time to live is not
      positive; and otherwise sent, as the next of its key. */
  lemma SendExact(cfg: Config, now: int, es: seq<Event>, p: string, d: string, code: string, dailyTtl: Seconds)
    ensures var w := Run(cfg, Fresh(now), es);
      var t, used := w.redis.now, OnLiveQuota(w.log, p, d, w.redis.now);
      var recent := Recent(cfg, w.log, p, t);
      var log := Next(cfg, w, AskSend(p, d, code, dailyTtl)).log;
      && |log| == |w.log| + 1 && log[|w.log|].SendEntry?
      && var reply := log[|w.log|].sent;
         && (recent <==> reply.TooFrequent?)
         && (recent ==> LastSent(w.log, p).At? && LastSent(w.log, p).index < |w.log|
                        && reply.left == w.log[LastSent(w.log, p).index].time + cfg.cooldown - t)
         && (reply == OverLimit(used) <==> !recent && used >= cfg.dailyLimit)
         && (reply == Failed(false) <==> !recent && used < cfg.dailyLimit && cfg.codeTtl <= 0)
         && (reply == Failed(true) <==> !recent && used < cfg.dailyLimit && cfg.codeTtl > 0 && cfg.cooldown <= 0)
         && (reply == Sent(used + 1) <==> !recent && used < cfg.dailyLimit && cfg.codeTtl > 0 && cfg.cooldown > 0)
  {
    RunInv(cfg, Fresh(now), es);
    var w := Run(cfg, Fresh(now), es);
    UsedIsOnLiveQuota(cfg, w, p, d);
    CoolingIsRecent(cfg, w, p);
  }

  // ---- A day's worth of messages ----

  function Burst(cfg: Config, p: string, d: string, code: string, dailyTtl: Seconds, k: nat): seq<Event>
    requires cfg.cooldown > 0
  {
    if k == 0 then []
    else Burst(cfg, p, d, code, dailyTtl, k - 1) + [AskSend(p, d, code, dailyTtl), Tick(cfg.cooldown)]
  }

  lemma {:induction false} RunAppend(cfg: Config, w: World, a: seq<Event>, b: seq<Event>)
    ensures Run(cfg, w, a + b) == Run(cfg, Run(cfg, w, a), b)
    decreases |a|
  {
    if a == [] {
      assert a + b == b;
    } else {
      assert (a + b)[1..] == a[1..] + b;
      RunAppend(cfg, Next(cfg, w, a[0]), a[1..], b);
    }
  }

  lemma RunTwo(cfg: Config, w: World, a: Event, b: Event)
    ensures Run(cfg, w, [a, b]) == Next(cfg, Next(cfg, w, a), b)
  {
    assert [a, b][1..] == [b] && [b][1..] == [];
    assert Run(cfg, Next(cfg, w, a), [b]) == Run(cfg, Next(cfg, Next(cfg, w, a), b), []);
  }

  /** Asked for a cooldown apart, on one quota key that outlives them, `dailyLimit` messages go out. */
  lemma {:induction false} BurstGoesOut(cfg: Config, now: int, p: string, d: string, code: string, dailyTtl: Seconds, k: nat)
    requires cfg.codeTtl > 0 && cfg.cooldown > 0 && k <= cfg.dailyLimit
    requires k > 1 ==> (k - 1) * cfg.cooldown < dailyTtl
    ensures var w := Run(cfg, Fresh(now), Burst(cfg, p, d, code, dailyTtl, k));
      && |w.log| == k && (forall i :: 0 <= i < k ==> SentOn(w.log[i], p, d) && w.log[i].sent == Sent(i + 1))
      && w.redis.now == now + k * cfg.cooldown
      && (k > 0 ==> p in w.redis.cooldowns && w.redis.cooldowns[p] <= w.redis.now)
      && (k > 0 ==> (p, d) in w.redis.days && w.redis.days[(p, d)] == Counter(k, now + dailyTtl))
      && (k == 0 ==> w == Fresh(now))
  {
    if k > 0 {
      Step(k - 1, cfg.cooldown);
      if k > 1 {
        Less(k - 2, k - 1, cfg.cooldown);
      }
      BurstGoesOut(cfg, now, p, d, code, dailyTtl, k - 1);
      var front := Burst(cfg, p, d, code, dailyTtl, k - 1);
      var w := Run(cfg, Fresh(now), front);
      RunAppend(cfg, Fresh(now), front, [AskSend(p, d, code, dailyTtl), Tick(cfg.cooldown)]);
      RunTwo(cfg, w, AskSend(p, d, code, dailyTtl), Tick(cfg.cooldown));
      assert Used(w.redis, p, d) == k - 1;
      assert !Cooling(w.redis, p);
    }
  }

  lemma Step(k: nat, c: int)
    ensures (k + 1) * c == k * c + c
  {}

  lemma Less(j: nat, k: nat, c: int)
    requires j <= k && c > 0
    ensures j * c <= k * c
  {}

  // ---- Verifications ----

  /** The last "wrong" that p was told since a code of p was last accepted. */
  function LastWrong(log: seq<Entry>, p: string): Position {
    if log == [] then Nowhere
    else
      var n := |log| - 1;
      if SaysWrong(log[n], p) then At(n) else if Accepts(log[n], p) then Nowhere else LastWrong(log[..n], p)
  }

  /** When the code that p has before an entry runs out. */
  function CodeEnd(cfg: Config, log: seq<Entry>, p: string): int {
    match Current(log, p)
    case Nowhere => 0
    case At(i) => if i < |log| then log[i].time + cfg.codeTtl else 0
  }

  /** How many wrong guesses count against p: as many as the last "wrong" said, as long as the code
      lives that it was said about. */
  function Counted(cfg: Config, log: seq<Entry>, p: string, now: int): nat {
    match LastWrong(log, p)
    case Nowhere => 0
    case At(i) =>
      if i < |log| && SaysWrong(log[i], p) && now < CodeEnd(cfg, log[..i], p) then log[i].verified.t else 0
  }

  ghost predicate CountMirror(cfg: Config, w: World, p: string) {
    match LastWrong(w.log, p)
    case Nowhere => p !in w.redis.tries
    case At(i) =>
      && i < |w.log| && SaysWrong(w.log[i], p) && p in w.redis.tries
      && w.redis.tries[p] == Counter(w.log[i].verified.t, CodeEnd(cfg, w.log[..i], p))
  }

  lemma WrongNext(log: seq<Entry>, r: Entry, p: string)
    ensures LastWrong(log + [r], p) ==
      if SaysWrong(r, p) then At(|log|) else if Accepts(r, p) then Nowhere else LastWrong(log, p)
  {
    assert (log + [r])[..|log|] == log;
  }

  lemma CountUntouched(cfg: Config, w: World, s: Redis, r: Entry, p: string)
    requires CountMirror(cfg, w, p) && !SaysWrong(r, p) && !Accepts(r, p)
    requires p in s.tries <==> p in w.redis.tries
    requires p in s.tries ==> s.tries[p] == w.redis.tries[p]
    ensures CountMirror(cfg, World(s, w.log + [r]), p)
  {
    WrongNext(w.log, r, p);
    if LastWrong(w.log, p).At? {
      var i := LastWrong(w.log, p).index;
      assert (w.log + [r])[..i] == w.log[..i];
    }
  }

  lemma CountAnswered(cfg: Config, w: World, e: Event)
    requires Inv(cfg, w) && e.AskVerify? && CountMirror(cfg, w, e.p)
    ensures CountMirror(cfg, Next(cfg, w, e), e.p)
  {
    var w', p := Next(cfg, w, e), e.p;
    var r := w'.log[|w.log|];
    assert PhoneMirror(cfg, w, p);
    if SaysWrong(r, p) || Accepts(r, p) {
      WrongNext(w.log, r, p);
      assert w'.log[..|w.log|] == w.log;
    } else {
      CountUntouched(cfg, w, w'.redis, r, p);
    }
  }

  lemma StepCount(cfg: Config, w: World, e: Event, p: string)
    requires Inv(cfg, w) && CountMirror(cfg, w, p)
    ensures CountMirror(cfg, Next(cfg, w, e), p)
  {
    var w' := Next(cfg, w, e);
    if e.AskVerify? && e.p == p {
      CountAnswered(cfg, w, e);
    } else if !e.Tick? {
      CountUntouched(cfg, w, w'.redis, w'.log[|w.log|], p);
    }
  }

  lemma {:induction false} RunCount(cfg: Config, w: World, es: seq<Event>, p: string)
    requires Inv(cfg, w) && CountMirror(cfg, w, p)
    ensures CountMirror(cfg, Run(cfg, w, es), p)
    decreases |es|
  {
    if es != [] {
      StepInv(cfg, w, es[0]);
      StepCount(cfg, w, es[0], p);
      RunCount(cfg, Next(cfg, w, es[0]), es[1..], p);
    }
  }

  /** The reply to a guess, in every state of every run: "missing" if and only if no stored code of
      the number is alive; otherwise void if and only if the counted wrong guesses have reached the
      limit; otherwise accepted if and only if it is the stored code; and otherwise "wrong", with one
      guess more. */
  lemma VerifyExact(cfg: Config, now: int, es: seq<Event>, p: string, input: string)
    ensures var w := Run(cfg, Fresh(now), es);
      var t, c := w.redis.now, Current(w.log, p);
      var counted := Counted(cfg, w.log, p, w.redis.now);
      var log := Next(cfg, w, AskVerify(p, input)).log;
      && |log| == |w.log| + 1 && log[|w.log|].VerifyEntry?
      && (c.At? ==> c.index < |w.log| && Stores(w.log[c.index], p))
      && var reply, alive := log[|w.log|].verified, c.At? && t < w.log[c.index].time + cfg.codeTtl;
         && (reply == Missing <==> !alive)
         && (reply == Voided <==> alive && counted >= cfg.maxAttempts)
         && (reply == Accepted <==> alive && counted < cfg.maxAttempts && input == w.log[c.index].code)
         && (reply == Wrong(counted + 1) <==> alive && counted < cfg.maxAttempts && input != w.log[c.index].code)
  {
    RunInv(cfg, Fresh(now), es);
    RunCount(cfg, Fresh(now), es, p);
    var w := Run(cfg, Fresh(now), es);
    assert PhoneMirror(cfg, w, p);
    assert Tries(w.redis, p) == Counted(cfg, w.log, p, w.redis.now);
  }
}
