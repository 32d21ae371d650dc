/** Verification codes by text message: the two scripts that Redis runs as one step each, over keys
    that expire. Time is counted in whole ticks. A key is present until its time is up. */
module SmsScripts {

  /** A time to live that the caller has made sure is positive. */
  type Seconds = x: int | x > 0 witness 1

  datatype Config = Config(codeTtl: int, cooldown: int, dailyLimit: int, maxAttempts: int)

  datatype Stored = Stored(code: string, until: int)

  datatype Counter = Counter(n: nat, until: int)

  /** The four families of keys: by phone number, and the quota by phone number and day. */
  datatype Redis = Redis(
    now: int,
    codes: map<string, Stored>,
    cooldowns: map<string, int>,
    tries: map<string, Counter>,
    days: map<(string, string), Counter>)

  datatype SendReply = TooFrequent(left: int) | OverLimit(used: nat) | Sent(n: nat) | Failed(stored: bool)

  datatype VerifyReply = Accepted | Missing | Wrong(t: nat) | Voided

  predicate CodeLive(s: Redis, p: string) { p in s.codes && s.now < s.codes[p].until }

  predicate Cooling(s: Redis, p: string) { p in s.cooldowns && s.now < s.cooldowns[p] }

  function Tries(s: Redis, p: string): nat {
    if p in s.tries && s.now < s.tries[p].until then s.tries[p].n else 0
  }

  function Used(s: Redis, p: string, d: string): nat {
    if (p, d) in s.days && s.now < s.days[(p, d)].until then s.days[(p, d)].n else 0
  }

  /** The script of `sendCode`. SETEX refuses a time that is not positive, and a script that fails
      keeps what it has written so far. */
  function Send(cfg: Config, s: Redis, p: string, d: string, code: string, dailyTtl: Seconds): (Redis, SendReply) {
    var used := Used(s, p, d);
    if Cooling(s, p) then (s, TooFrequent(s.cooldowns[p] - s.now))
    else if used >= cfg.dailyLimit then (s, OverLimit(used))
    else if cfg.codeTtl <= 0 then (s, Failed(false))
    else
      var s1 := s.(codes := s.codes[p := Stored(code, s.now + cfg.codeTtl)]);
      if cfg.cooldown <= 0 then (s1, Failed(true))
      else
        var until := if used == 0 then s.now + dailyTtl else s.days[(p, d)].until;
        (s1.(cooldowns := s.cooldowns[p := s.now + cfg.cooldown], days := s.days[(p, d) := Counter(used + 1, until)]),
         Sent(used + 1))
  }

  /** The script of `verifyCode`. */
  function Verify(cfg: Config, s: Redis, p: string, input: string): (Redis, VerifyReply) {
    if !CodeLive(s, p) then (s, Missing)
    else if Tries(s, p) >= cfg.maxAttempts then (s.(codes := s.codes - {p}), Voided)
    else if s.codes[p].code == input then (s.(codes := s.codes - {p}, tries := s.tries - {p}), Accepted)
    else
      var t := Tries(s, p) + 1;
      (s.(tries := s.tries[p := Counter(t, s.codes[p].until)]), Wrong(t))
  }

  // ---- Runs, with a log of what was asked and answered ----

  datatype Event =
    | Tick(ticks: nat)
    | AskSend(p: string, d: string, code: string, dailyTtl: Seconds)
    | AskVerify(p: string, input: string)

  datatype Entry =
    | SendEntry(time: int, p: string, d: string, code: string, dailyTtl: Seconds, sent: SendReply)
    | VerifyEntry(time: int, p: string, input: string, verified: VerifyReply)

  datatype World = World(redis: Redis, log: seq<Entry>)

  function Next(cfg: Config, w: World, e: Event): World {
    var s := w.redis;
    match e
    case Tick(ticks) => w.(redis := s.(now := s.now + ticks))
    case AskSend(p, d, code, dailyTtl) =>
      var (s', reply) := Send(cfg, s, p, d, code, dailyTtl);
      World(s', w.log + [SendEntry(s.now, p, d, code, dailyTtl, reply)])
    case AskVerify(p, input) =>
      var (s', reply) := Verify(cfg, s, p, input);
      World(s', w.log + [VerifyEntry(s.now, p, input, reply)])
  }

  function Run(cfg: Config, w: World, es: seq<Event>): World
    decreases |es|
  {
    if es == [] then w else Run(cfg, Next(cfg, w, es[0]), es[1..])
  }

  function Fresh(now: int): World { World(Redis(now, map[], map[], map[], map[]), []) }

  // ---- What the log says ----

  /** A code of p was stored, with or without the rest of the script. */
  predicate Stores(r: Entry, p: string) {
    r.SendEntry? && r.p == p && (r.sent.Sent? || r.sent == Failed(true))
  }

  predicate SentTo(r: Entry, p: string) { r.SendEntry? && r.p == p && r.sent.Sent? }

  predicate SentOn(r: Entry, p: string, d: string) { SentTo(r, p) && r.d == d }

  predicate Accepts(r: Entry, p: string) { r.VerifyEntry? && r.p == p && r.verified.Accepted? }

  /** The stored code of p was used up or made void. */
  predicate Ends(r: Entry, p: string) {
    r.VerifyEntry? && r.p == p && (r.verified.Accepted? || r.verified.Voided?)
  }

  predicate SaysWrong(r: Entry, p: string) { r.VerifyEntry? && r.p == p && r.verified.Wrong? }

  datatype Position = Nowhere | At(index: nat)

  /** The entry whose code of p is stored and neither used up nor void. */
  function Current(log: seq<Entry>, p: string): Position {
    if log == [] then Nowhere
    else
      var n := |log| - 1;
      if Stores(log[n], p) then At(n) else if Ends(log[n], p) then Nowhere else Current(log[..n], p)
  }

  /** How often p was told "wrong" since its code was last stored. */
  function Misses(log: seq<Entry>, p: string): nat {
    if log == [] then 0
    else
      var n := |log| - 1;
      if Stores(log[n], p) then 0 else (if SaysWrong(log[n], p) then 1 else 0) + Misses(log[..n], p)
  }

  function LastSent(log: seq<Entry>, p: string): Position {
    if log == [] then Nowhere
    else
      var n := |log| - 1;
      if SentTo(log[n], p) then At(n) else LastSent(log[..n], p)
  }

  /** How many messages went to p on the present key of day d, and the entry that created it. */
  function DaySends(log: seq<Entry>, p: string, d: string): nat {
    if log == [] then 0
    else
      var n := |log| - 1;
      if !SentOn(log[n], p, d) then DaySends(log[..n], p, d)
      else if log[n].sent.n == 1 then 1 else 1 + DaySends(log[..n], p, d)
  }

  function DayStart(log: seq<Entry>, p: string, d: string): Position {
    if log == [] then Nowhere
    else
      var n := |log| - 1;
      if SentOn(log[n], p, d) && log[n].sent.n == 1 then At(n) else DayStart(log[..n], p, d)
  }

  function AtLeastZero(x: int): nat { if x < 0 then 0 else x }

  /** What every answer has to do with the answers before it. */
  predicate Good(cfg: Config, log: seq<Entry>, r: Entry) {
    match r
    case VerifyEntry(time, p, input, reply) =>
      var c := Current(log, p);
      && (reply.Accepted? ==>
            c.At? && c.index < |log| && Stores(log[c.index], p)
            && log[c.index].code == input && time < log[c.index].time + cfg.codeTtl)
      && (reply.Accepted? ==> cfg.maxAttempts > 0)
      && (reply.Wrong? ==> c.At? && Misses(log, p) < cfg.maxAttempts)
    case SendEntry(time, p, d, _, _, reply) =>
      var last, start := LastSent(log, p), DayStart(log, p, d);
      && (reply == Failed(true) ==> cfg.cooldown <= 0 && cfg.codeTtl > 0 && cfg.dailyLimit > 0)
      && (reply.Sent? ==>
        && cfg.cooldown > 0 && cfg.codeTtl > 0
        && (last.At? ==> last.index < |log| && log[last.index].time + cfg.cooldown <= time)
        && 1 <= reply.n <= cfg.dailyLimit
        && (reply.n > 1 ==> reply.n == DaySends(log, p, d) + 1)
        && (reply.n == 1 && start.At? ==>
              start.index < |log| && log[start.index].SendEntry?
              && log[start.index].time + log[start.index].dailyTtl <= time))
  }

  predicate History(cfg: Config, log: seq<Entry>) {
    log == [] ||
    var n := |log| - 1;
    History(cfg, log[..n]) && Good(cfg, log[..n], log[n]) && (n > 0 ==> log[n - 1].time <= log[n].time)
  }

  // ---- The keys mirror the log ----

  ghost predicate CodeMirror(cfg: Config, w: World, p: string) {
    match Current(w.log, p)
    case Nowhere => p !in w.redis.codes
    case At(i) =>
      && i < |w.log| && Stores(w.log[i], p) && p in w.redis.codes
      && w.redis.codes[p] == Stored(w.log[i].code, w.log[i].time + cfg.codeTtl)
  }

  /** Once p was told "wrong" about its code, the counter lives as long as that code. */
  ghost predicate TryMirror(cfg: Config, w: World, p: string) {
    && Misses(w.log, p) <= AtLeastZero(cfg.maxAttempts)
    && (p in w.redis.codes && Misses(w.log, p) > 0 ==>
          && p in w.redis.tries && w.redis.tries[p].until == w.redis.codes[p].until
          && Misses(w.log, p) <= w.redis.tries[p].n)
  }

  ghost predicate CooldownMirror(cfg: Config, w: World, p: string) {
    match LastSent(w.log, p)
    case Nowhere => p !in w.redis.cooldowns
    case At(i) => i < |w.log| && p in w.redis.cooldowns && w.redis.cooldowns[p] == w.log[i].time + cfg.cooldown
  }

  ghost predicate DayMirror(w: World, p: string, d: string) {
    match DayStart(w.log, p, d)
    case Nowhere => (p, d) !in w.redis.days && DaySends(w.log, p, d) == 0
    case At(i) =>
      && i < |w.log| && w.log[i].SendEntry? && (p, d) in w.redis.days
      && w.redis.days[(p, d)] == Counter(DaySends(w.log, p, d), w.log[i].time + w.log[i].dailyTtl)
      && DaySends(w.log, p, d) > 0
  }

  ghost predicate PhoneMirror(cfg: Config, w: World, p: string) {
    CodeMirror(cfg, w, p) && TryMirror(cfg, w, p) && CooldownMirror(cfg, w, p)
  }

  ghost predicate Inv(cfg: Config, w: World) {
    && (forall p :: PhoneMirror(cfg, w, p))
    && (forall p, d :: DayMirror(w, p, d))
    && History(cfg, w.log)
    && (w.log != [] ==> w.log[|w.log| - 1].time <= w.redis.now)
  }

  // ---- One more entry in the log ----

  lemma PhoneNext(log: seq<Entry>, r: Entry, p: string)
    ensures Current(log + [r], p) ==
      if Stores(r, p) then At(|log|) else if Ends(r, p) then Nowhere else Current(log, p)
    ensures Misses(log + [r], p) == if Stores(r, p) then 0 else (if SaysWrong(r, p) then 1 else 0) + Misses(log, p)
    ensures LastSent(log + [r], p) == if SentTo(r, p) then At(|log|) else LastSent(log, p)
  {
    assert (log + [r])[..|log|] == log;
  }

  lemma DayNext(log: seq<Entry>, r: Entry, p: string, d: string)
    ensures DaySends(log + [r], p, d) ==
      if !SentOn(r, p, d) then DaySends(log, p, d) else if r.sent.n == 1 then 1 else 1 + DaySends(log, p, d)
    ensures DayStart(log + [r], p, d) == if SentOn(r, p, d) && r.sent.n == 1 then At(|log|) else DayStart(log, p, d)
  {
    assert (log + [r])[..|log|] == log;
  }

  /** An entry that says nothing about p, and keys of p as they were. */
  lemma PhoneUntouched(cfg: Config, w: World, s: Redis, r: Entry, p: string)
    requires PhoneMirror(cfg, w, p) && !Stores(r, p) && !Ends(r, p) && !SaysWrong(r, p)
    requires p in s.codes <==> p in w.redis.codes
    requires p in s.codes ==> s.codes[p] == w.redis.codes[p]
    requires p in s.tries <==> p in w.redis.tries
    requires p in s.tries ==> s.tries[p] == w.redis.tries[p]
    requires p in s.cooldowns <==> p in w.redis.cooldowns
    requires p in s.cooldowns ==> s.cooldowns[p] == w.redis.cooldowns[p]
    ensures PhoneMirror(cfg, World(s, w.log + [r]), p)
  {
    PhoneNext(w.log, r, p);
  }

  lemma DayUntouched(w: World, s: Redis, r: Entry, p: string, d: string)
    requires DayMirror(w, p, d) && !SentOn(r, p, d)
    requires (p, d) in s.days <==> (p, d) in w.redis.days
    requires (p, d) in s.days ==> s.days[(p, d)] == w.redis.days[(p, d)]
    ensures DayMirror(World(s, w.log + [r]), p, d)
  {
    DayNext(w.log, r, p, d);
  }

  // ---- Sends ----

  lemma SendAnswer(cfg: Config, w: World, e: Event)
    requires Inv(cfg, w) && e.AskSend?
    ensures History(cfg, Next(cfg, w, e).log)
  {
    assert Next(cfg, w, e).log[..|w.log|] == w.log;
    assert PhoneMirror(cfg, w, e.p) && DayMirror(w, e.p, e.d);
  }

  /** A send that stored a code, with or without the rest of the script. */
  lemma SendStored(cfg: Config, w: World, e: Event)
    requires e.AskSend? && PhoneMirror(cfg, w, e.p)
    requires Stores(Next(cfg, w, e).log[|w.log|], e.p)
    ensures PhoneMirror(cfg, Next(cfg, w, e), e.p)
  {
    var w' := Next(cfg, w, e);
    PhoneNext(w.log, w'.log[|w.log|], e.p);
  }

  lemma SendPhone(cfg: Config, w: World, e: Event, p: string)
    requires Inv(cfg, w) && e.AskSend?
    ensures PhoneMirror(cfg, Next(cfg, w, e), p)
  {
    var w' := Next(cfg, w, e);
    assert PhoneMirror(cfg, w, p);
    var r := w'.log[|w.log|];
    if Stores(r, p) {
      SendStored(cfg, w, e);
    } else {
      PhoneUntouched(cfg, w, w'.redis, r, p);
    }
  }

  lemma SendCounted(cfg: Config, w: World, e: Event)
    requires e.AskSend? && DayMirror(w, e.p, e.d)
    requires SentOn(Next(cfg, w, e).log[|w.log|], e.p, e.d)
    ensures DayMirror(Next(cfg, w, e), e.p, e.d)
  {
    DayNext(w.log, Next(cfg, w, e).log[|w.log|], e.p, e.d);
  }

  lemma SendDay(cfg: Config, w: World, e: Event, p: string, d: string)
    requires Inv(cfg, w) && e.AskSend?
    ensures DayMirror(Next(cfg, w, e), p, d)
  {
    var w' := Next(cfg, w, e);
    assert DayMirror(w, p, d);
    var r := w'.log[|w.log|];
    if SentOn(r, p, d) {
      SendCounted(cfg, w, e);
    } else {
      DayUntouched(w, w'.redis, r, p, d);
    }
  }

  lemma SendKeeps(cfg: Config, w: World, e: Event)
    requires Inv(cfg, w) && e.AskSend?
    ensures Inv(cfg, Next(cfg, w, e))
  {
    SendAnswer(cfg, w, e);
    forall p {
      SendPhone(cfg, w, e, p);
    }
    forall p, d {
      SendDay(cfg, w, e, p, d);
    }
  }

  // ---- Verifications ----

  lemma VerifyAnswer(cfg: Config, w: World, e: Event)
    requires Inv(cfg, w) && e.AskVerify?
    ensures History(cfg, Next(cfg, w, e).log)
  {
    assert Next(cfg, w, e).log[..|w.log|] == w.log;
    assert PhoneMirror(cfg, w, e.p);
  }

  lemma VerifyAnswered(cfg: Config, w: World, e: Event)
    requires e.AskVerify? && PhoneMirror(cfg, w, e.p)
    ensures PhoneMirror(cfg, Next(cfg, w, e), e.p)
  {
    PhoneNext(w.log, Next(cfg, w, e).log[|w.log|], e.p);
  }

  lemma VerifyPhone(cfg: Config, w: World, e: Event, p: string)
    requires Inv(cfg, w) && e.AskVerify?
    ensures PhoneMirror(cfg, Next(cfg, w, e), p)
  {
    var w' := Next(cfg, w, e);
    assert PhoneMirror(cfg, w, p);
    if p == e.p {
      VerifyAnswered(cfg, w, e);
    } else {
      PhoneUntouched(cfg, w, w'.redis, w'.log[|w.log|], p);
    }
  }

  lemma VerifyKeeps(cfg: Config, w: World, e: Event)
    requires Inv(cfg, w) && e.AskVerify?
    ensures Inv(cfg, Next(cfg, w, e))
  {
    var w' := Next(cfg, w, e);
    VerifyAnswer(cfg, w, e);
    forall p {
      VerifyPhone(cfg, w, e, p);
    }
    forall p, d ensures DayMirror(w', p, d) {
      assert DayMirror(w, p, d);
      DayUntouched(w, w'.redis, w'.log[|w.log|], p, d);
    }
  }

  lemma TickKeeps(cfg: Config, w: World, e: Event)
    requires Inv(cfg, w) && e.Tick?
    ensures Inv(cfg, Next(cfg, w, e))
  {
    var w' := Next(cfg, w, e);
    forall p ensures PhoneMirror(cfg, w', p) {
      assert PhoneMirror(cfg, w, p);
    }
    forall p, d ensures DayMirror(w', p, d) {
      assert DayMirror(w, p, d);
    }
  }

  lemma StepInv(cfg: Config, w: World, e: Event)
    requires Inv(cfg, w)
    ensures Inv(cfg, Next(cfg, w, e))
  {
    match e
    case Tick(_) => TickKeeps(cfg, w, e);
    case AskSend(_, _, _, _) => SendKeeps(cfg, w, e);
    case AskVerify(_, _) => VerifyKeeps(cfg, w, e);
  }

  lemma {:induction false} RunInv(cfg: Config, w: World, es: seq<Event>)
    requires Inv(cfg, w)
    ensures Inv(cfg, Run(cfg, w, es))
    decreases |es|
  {
    if es != [] {
      StepInv(cfg, w, es[0]);
      RunInv(cfg, Next(cfg, w, es[0]), es[1..]);
    }
  }
}
