/** What the two scripts guarantee over every run, for every phone number, whatever the numbers of
    sends, guesses and waits and their order. */
module SmsTheorems {
  import opened SmsScripts

  function LogOf(cfg: Config, now: int, es: seq<Event>): seq<Entry> { Run(cfg, Fresh(now), es).log }

  lemma RunHistory(cfg: Config, now: int, es: seq<Event>)
    ensures History(cfg, LogOf(cfg, now, es))
  {
    RunInv(cfg, Fresh(now), es);
  }

  lemma {:induction false} HistoryAt(cfg: Config, log: seq<Entry>, j: nat)
    requires History(cfg, log) && j < |log|
    ensures History(cfg, log[..j]) && Good(cfg, log[..j], log[j])
  {
    var n := |log| - 1;
    if j < n {
      HistoryAt(cfg, log[..n], j);
      assert log[..n][..j] == log[..j];
    }
  }

  lemma {:induction false} TimesOrdered(cfg: Config, log: seq<Entry>, i: nat, j: nat)
    requires History(cfg, log) && i <= j < |log|
    ensures log[i].time <= log[j].time
  {
    var n := |log| - 1;
    if j < n {
      TimesOrdered(cfg, log[..n], i, j);
    } else if i < j {
      TimesOrdered(cfg, log[..n], i, n - 1);
    }
  }

  // ---- One accepted verification for one stored code ----

  lemma {:induction false} CurrentMeans(log: seq<Entry>, p: string)
    requires Current(log, p).At?
    ensures var i := Current(log, p).index;
      i < |log| && Stores(log[i], p) && forall k :: i < k < |log| ==> !Stores(log[k], p) && !Ends(log[k], p)
  {
    var n := |log| - 1;
    if !Stores(log[n], p) {
      CurrentMeans(log[..n], p);
      assert forall k :: 0 <= k < n ==> log[..n][k] == log[k];
    }
  }

  /** An accepted verification uses the code that was stored last, in time, with the right text,
      and neither used up nor made void in between. */
  lemma AcceptedUsesLastCode(cfg: Config, now: int, es: seq<Event>, p: string, j: nat)
    requires j < |LogOf(cfg, now, es)| && Accepts(LogOf(cfg, now, es)[j], p)
    ensures var log, c := LogOf(cfg, now, es), Current(LogOf(cfg, now, es)[..j], p);
      && c.At? && c.index < j && Stores(log[c.index], p)
      && log[c.index].code == log[j].input && log[j].time < log[c.index].time + cfg.codeTtl
      && forall k :: c.index < k < j ==> !Stores(log[k], p) && !Ends(log[k], p)
  {
    var log := LogOf(cfg, now, es);
    RunHistory(cfg, now, es);
    HistoryAt(cfg, log, j);
    CurrentMeans(log[..j], p);
    assert forall k :: 0 <= k < j ==> log[..j][k] == log[k];
  }

  /** No stored code is ever accepted twice. */
  lemma AcceptedCodesDiffer(cfg: Config, now: int, es: seq<Event>, p: string, j: nat, k: nat)
    requires j < k < |LogOf(cfg, now, es)|
    requires Accepts(LogOf(cfg, now, es)[j], p) && Accepts(LogOf(cfg, now, es)[k], p)
    ensures var log := LogOf(cfg, now, es);
      && Current(log[..j], p).At? && Current(log[..k], p).At?
      && Current(log[..j], p).index < j < Current(log[..k], p).index < k
  {
    AcceptedUsesLastCode(cfg, now, es, p, j);
    AcceptedUsesLastCode(cfg, now, es, p, k);
  }

  /** The verification at j uses a code that a successful send stored. */
  ghost predicate UsesSend(log: seq<Entry>, p: string, j: nat)
    requires j < |log|
  {
    Accepts(log[j], p) ==>
      var c := Current(log[..j], p);
      c.At? && c.index < j && SentTo(log[c.index], p) && log[c.index].code == log[j].input
  }

  /** In every run every accepted verification does. */
  ghost predicate AcceptedUsesSends(cfg: Config) {
    forall now, es, p: string, j: nat :: j < |LogOf(cfg, now, es)| ==> UsesSend(LogOf(cfg, now, es), p, j)
  }

  /** A script that stores codes and then fails, because the cooldown is no time to live. */
  predicate StoresAndFails(cfg: Config) {
    cfg.codeTtl > 0 && cfg.cooldown <= 0 && cfg.dailyLimit > 0 && cfg.maxAttempts > 0
  }

  lemma AcceptedUsesSend(cfg: Config, now: int, es: seq<Event>, p: string, j: nat)
    requires !StoresAndFails(cfg) && j < |LogOf(cfg, now, es)|
    ensures UsesSend(LogOf(cfg, now, es), p, j)
  {
    var log := LogOf(cfg, now, es);
    if Accepts(log[j], p) {
      AcceptedUsesLastCode(cfg, now, es, p, j);
      RunHistory(cfg, now, es);
      HistoryAt(cfg, log, j);
      HistoryAt(cfg, log, Current(log[..j], p).index);
    }
  }

  /** Otherwise one send, reported as failed, and its code are enough. */
  lemma FailedSendAccepted(cfg: Config, p: string, d: string, code: string)
    requires StoresAndFails(cfg)
    ensures var log := LogOf(cfg, 0, [AskSend(p, d, code, 1), AskVerify(p, code)]);
      |log| == 2 && log[0].SendEntry? && log[0].sent == Failed(true) && Accepts(log[1], p) && !UsesSend(log, p, 1)
  {
    var ask: Event, verify: Event := AskSend(p, d, code, 1), AskVerify(p, code);
    var es := [ask, verify];
    assert es[1..] == [verify] && [verify][1..] == [];
    var w1 := Next(cfg, Fresh(0), ask);
    var w2 := Next(cfg, w1, verify);
    assert Run(cfg, w1, [verify]) == Run(cfg, w2, []);
    assert Run(cfg, Fresh(0), es) == w2;
    assert w2.log[..1] == w1.log && w1.log[..0] == [];
  }

  /** Every accepted verification consumes a successful send, in all runs, if and only if the
      settings do not let the script store a code and then fail: the cooldown is positive, or no
      code is ever stored, or none is ever accepted. */
  lemma AcceptedUsesSendExact(cfg: Config)
    ensures AcceptedUsesSends(cfg) <==> !StoresAndFails(cfg)
  {
    if StoresAndFails(cfg) {
      FailedSendAccepted(cfg, "", "", "");
    } else {
      forall now, es, p: string, j: nat | j < |LogOf(cfg, now, es)| ensures UsesSend(LogOf(cfg, now, es), p, j) {
        AcceptedUsesSend(cfg, now, es, p, j);
      }
    }
  }

  // ---- Guesses for one stored code ----

  /** How often p was told "wrong" in log[i..m]. */
  function Wrongs(log: seq<Entry>, p: string, i: nat, m: nat): nat
    requires m <= |log|
  {
    if m <= i then 0 else (if SaysWrong(log[m - 1], p) then 1 else 0) + Wrongs(log, p, i, m - 1)
  }

  lemma {:induction false} MissesAreWrongs(log: seq<Entry>, p: string, i: nat, m: nat)
    requires i < m <= |log| && Stores(log[i], p) && forall k :: i < k < m ==> !Stores(log[k], p)
    ensures Misses(log[..m], p) == Wrongs(log, p, i, m)
  {
    assert log[..m][..m - 1] == log[..m - 1];
    if i < m - 1 {
      MissesAreWrongs(log, p, i, m - 1);
    }
  }

  lemma {:induction false} MissesBounded(cfg: Config, log: seq<Entry>, p: string)
    requires History(cfg, log)
    ensures Misses(log, p) <= AtLeastZero(cfg.maxAttempts)
  {
    if log != [] {
      MissesBounded(cfg, log[..|log| - 1], p);
    }
  }

  /** From the storing of a code until the next one is stored, "wrong" is said at most
      `maxAttempts` times, although storing a code does not reset the counter. */
  lemma GuessesPerCode(cfg: Config, now: int, es: seq<Event>, p: string, i: nat, m: nat)
    requires i < m <= |LogOf(cfg, now, es)| && Stores(LogOf(cfg, now, es)[i], p)
    requires forall k :: i < k < m ==> !Stores(LogOf(cfg, now, es)[k], p)
    ensures Wrongs(LogOf(cfg, now, es), p, i, m) <= AtLeastZero(cfg.maxAttempts)
  {
    var log := LogOf(cfg, now, es);
    RunHistory(cfg, now, es);
    if m < |log| {
      HistoryAt(cfg, log, m);
    }
    assert m == |log| ==> log[..m] == log;
    MissesAreWrongs(log, p, i, m);
    MissesBounded(cfg, log[..m], p);
  }

  /** A code that has just been sent is accepted when entered at once exactly if the counter left
      over from earlier codes is below the limit. Otherwise the new code is made void unread. */
  lemma FreshCodeAccepted(cfg: Config, s: Redis, p: string, d: string, code: string, dailyTtl: Seconds)
    requires Send(cfg, s, p, d, code, dailyTtl).1.Sent?
    ensures var s' := Send(cfg, s, p, d, code, dailyTtl).0;
      && (Verify(cfg, s', p, code).1 == Accepted <==> Tries(s, p) < cfg.maxAttempts)
      && (Verify(cfg, s', p, code).1 == Voided <==> Tries(s, p) >= cfg.maxAttempts)
  {
    var s' := Send(cfg, s, p, d, code, dailyTtl).0;
    assert Tries(s', p) == Tries(s, p) && CodeLive(s', p);
  }

  // ---- Sends ----

  lemma {:induction false} LastSentMeans(log: seq<Entry>, p: string)
    ensures match LastSent(log, p)
      case Nowhere => forall k :: 0 <= k < |log| ==> !SentTo(log[k], p)
      case At(i) => i < |log| && SentTo(log[i], p) && forall k :: i < k < |log| ==> !SentTo(log[k], p)
  {
    if log != [] {
      var n := |log| - 1;
      LastSentMeans(log[..n], p);
      assert forall k :: 0 <= k < n ==> log[..n][k] == log[k];
    }
  }

  /** Any two messages to one number are at least the cooldown apart. */
  lemma SendsApart(cfg: Config, now: int, es: seq<Event>, p: string, i: nat, j: nat)
    requires i < j < |LogOf(cfg, now, es)|
    requires SentTo(LogOf(cfg, now, es)[i], p) && SentTo(LogOf(cfg, now, es)[j], p)
    ensures LogOf(cfg, now, es)[i].time + cfg.cooldown <= LogOf(cfg, now, es)[j].time
    ensures cfg.cooldown > 0
  {
    var log := LogOf(cfg, now, es);
    RunHistory(cfg, now, es);
    HistoryAt(cfg, log, j);
    LastSentMeans(log[..j], p);
    assert log[..j][i] == log[i];
    TimesOrdered(cfg, log, i, LastSent(log[..j], p).index);
  }

  /** How many messages went to p for day d in log[i..m]. */
  function Sends(log: seq<Entry>, p: string, d: string, i: nat, m: nat): nat
    requires m <= |log|
  {
    if m <= i then 0 else (if SentOn(log[m - 1], p, d) then 1 else 0) + Sends(log, p, d, i, m - 1)
  }

  predicate Opens(r: Entry, p: string, d: string) { SentOn(r, p, d) && r.sent.n == 1 }

  lemma {:induction false} DayStartMeans(log: seq<Entry>, p: string, d: string)
    ensures match DayStart(log, p, d)
      case Nowhere => forall k :: 0 <= k < |log| ==> !Opens(log[k], p, d)
      case At(i) => i < |log| && Opens(log[i], p, d) && forall k :: i < k < |log| ==> !Opens(log[k], p, d)
  {
    if log != [] {
      var n := |log| - 1;
      DayStartMeans(log[..n], p, d);
      assert forall k :: 0 <= k < n ==> log[..n][k] == log[k];
    }
  }

  /** A quota key is opened anew only after the one before has run out. */
  lemma QuotaRestarts(cfg: Config, log: seq<Entry>, p: string, d: string, i: nat, j: nat)
    requires History(cfg, log) && i < j < |log| && Opens(log[i], p, d) && Opens(log[j], p, d)
    ensures log[i].time + log[i].dailyTtl <= log[j].time
    decreases j
  {
    HistoryAt(cfg, log, j);
    DayStartMeans(log[..j], p, d);
    var k := DayStart(log[..j], p, d).index;
    assert log[..j][i] == log[i] && log[..j][k] == log[k];
    if i < k {
      QuotaRestarts(cfg, log, p, d, i, k);
      TimesOrdered(cfg, log, k, j);
    }
  }

  lemma {:induction false} SendsAreDaySends(log: seq<Entry>, p: string, d: string, i: nat, m: nat)
    requires i < m <= |log| && Opens(log[i], p, d) && forall k :: i < k < m ==> !Opens(log[k], p, d)
    ensures DaySends(log[..m], p, d) == Sends(log, p, d, i, m)
  {
    assert log[..m][..m - 1] == log[..m - 1];
    if i < m - 1 {
      SendsAreDaySends(log, p, d, i, m - 1);
    }
  }

  lemma {:induction false} DaySendsBounded(cfg: Config, log: seq<Entry>, p: string, d: string)
    requires History(cfg, log)
    ensures DaySends(log, p, d) <= AtLeastZero(cfg.dailyLimit)
  {
    if log != [] {
      DaySendsBounded(cfg, log[..|log| - 1], p, d);
    }
  }

  /** As long as the quota key that was opened at entry i lives, at most `dailyLimit` messages go
      to its number for its day. */
  lemma QuotaHolds(cfg: Config, now: int, es: seq<Event>, p: string, d: string, i: nat, m: nat)
    requires i < m <= |LogOf(cfg, now, es)| && Opens(LogOf(cfg, now, es)[i], p, d)
    requires LogOf(cfg, now, es)[m - 1].time < LogOf(cfg, now, es)[i].time + LogOf(cfg, now, es)[i].dailyTtl
    ensures Sends(LogOf(cfg, now, es), p, d, i, m) <= cfg.dailyLimit
  {
    var log := LogOf(cfg, now, es);
    RunHistory(cfg, now, es);
    forall k | i < k < m ensures !Opens(log[k], p, d) {
      TimesOrdered(cfg, log, k, m - 1);
      if Opens(log[k], p, d) {
        QuotaRestarts(cfg, log, p, d, i, k);
      }
    }
    if m < |log| {
      HistoryAt(cfg, log, m);
    }
    assert m == |log| ==> log[..m] == log;
    HistoryAt(cfg, log, i);
    SendsAreDaySends(log, p, d, i, m);
    DaySendsBounded(cfg, log[..m], p, d);
  }
}
