/** The service around the two scripts: which keys it uses, and what it tells its caller. */
module SmsService {
  import opened SmsScripts
  import opened CStrings

  predicate IsPhone(phone: string) {
    |phone| == 11 && phone[0] == '1' && forall i :: 0 <= i < |phone| ==> '0' <= phone[i] <= '9'
  }

  function CodeKey(phone: string): string { "sms:code:" + phone }

  function CooldownKey(phone: string): string { "sms:cd:" + phone }

  function TryKey(phone: string): string { "sms:try:" + phone }

  function DayKey(phone: string, day: string): string { "sms:day:" + phone + ":" + day }

  /** Within a family, keys of different numbers, or of different days, differ. */
  lemma KeysDiffer(p: string, q: string, d: string, e: string)
    requires IsPhone(p) && IsPhone(q)
    ensures CodeKey(p) == CodeKey(q) <==> p == q
    ensures CooldownKey(p) == CooldownKey(q) <==> p == q
    ensures TryKey(p) == TryKey(q) <==> p == q
    ensures DayKey(p, d) == DayKey(q, e) <==> p == q && d == e
  {
    assert CodeKey(p)[9..] == p && CodeKey(q)[9..] == q;
    assert CooldownKey(p)[7..] == p && CooldownKey(q)[7..] == q;
    assert TryKey(p)[8..] == p && TryKey(q)[8..] == q;
    assert DayKey(p, d)[8..19] == p && DayKey(q, e)[8..19] == q;
    assert DayKey(p, d)[20..] == d && DayKey(q, e)[20..] == e;
  }

  /** The four families of keys never meet. */
  lemma KeysApart(p: string, q: string, e: string)
    ensures CodeKey(p) != CooldownKey(q) && CodeKey(p) != TryKey(q) && CodeKey(p) != DayKey(q, e)
    ensures CooldownKey(p) != TryKey(q) && CooldownKey(p) != DayKey(q, e) && TryKey(p) != DayKey(q, e)
  {
    assert CodeKey(p)[5] == 'o' && CooldownKey(p)[5] == 'd' && CooldownKey(q)[5] == 'd';
    assert TryKey(p)[5] == 'r' && TryKey(q)[5] == 'r' && DayKey(q, e)[5] == 'a';
  }

  method IsValidPhone(phone: string) returns (ok: bool)
    ensures ok <==> IsPhone(phone)
  {
    if |phone| != 11 || phone[0] != '1' {
      return false;
    }
    for i := 0 to |phone|
      invariant forall k :: 0 <= k < i ==> '0' <= phone[k] <= '9'
    {
      if phone[i] < '0' || phone[i] > '9' {
        return false;
      }
    }
    return true;
  }

  datatype SendResult = SendOk | SendInvalidPhone | SendTooFrequent | SendDailyLimit | SendRedisError

  datatype VerifyResult = VerifyOk | VerifyInvalidPhone | EmptyCode | WrongCode | TooManyAttempts | VerifyRedisError

  class Service {
    const cfg: Config
    var now: int
    var codes: map<string, Stored>
    var cooldowns: map<string, int>
    var tries: map<string, Counter>
    var days: map<(string, string), Counter>

    function Value(): Redis
      reads this
    {
      Redis(now, codes, cooldowns, tries, days)
    }

    constructor (cfg: Config, now: int)
      ensures Value() == Fresh(now).redis && this.cfg == cfg
    {
      this.cfg, this.now := cfg, now;
      codes, cooldowns, tries, days := map[], map[], map[], map[];
    }

    /** The first script, command by command. */
    method EvalSend(p: string, d: string, code: string, dailyTtl: Seconds) returns (reply: SendReply)
      modifies this
      ensures (Value(), reply) == Send(cfg, old(Value()), p, d, code, dailyTtl)
    {
      if p in cooldowns && now < cooldowns[p] {
        return TooFrequent(cooldowns[p] - now);
      }
      var live := (p, d) in days && now < days[(p, d)].until;
      var used := if live then days[(p, d)].n else 0;
      if used >= cfg.dailyLimit {
        return OverLimit(used);
      }
      if cfg.codeTtl <= 0 {
        return Failed(false);
      }
      codes := codes[p := Stored(code, now + cfg.codeTtl)];
      if cfg.cooldown <= 0 {
        return Failed(true);
      }
      cooldowns := cooldowns[p := now + cfg.cooldown];
      var n := used + 1;
      if n == 1 {
        days := days[(p, d) := Counter(n, now + dailyTtl)];
      } else {
        days := days[(p, d) := Counter(n, days[(p, d)].until)];
      }
      return Sent(n);
    }

    /** The second script, command by command. */
    method EvalVerify(p: string, input: string) returns (reply: VerifyReply)
      modifies this
      ensures (Value(), reply) == Verify(cfg, old(Value()), p, input)
    {
      if !(p in codes && now < codes[p].until) {
        return Missing;
      }
      var stored := codes[p];
      var t := if p in tries && now < tries[p].until then tries[p].n else 0;
      if t >= cfg.maxAttempts {
        codes := codes - {p};
        return Voided;
      }
      if stored.code == input {
        codes := codes - {p};
        tries := tries - {p};
        return Accepted;
      }
      tries := tries[p := Counter(t + 1, stored.until)];
      return Wrong(t + 1);
    }

    /** `code` is what the random source drew, empty when it failed; `reached` says whether Redis
        answered, `delivered` whether the sender took the message. The quota of a message that is
        not delivered is not given back. */
    method SendCode(phone: string, day: string, code: string, dailyTtl: Seconds, reached: bool, delivered: bool)
        returns (r: SendResult)
      modifies this
      ensures r == SendInvalidPhone <==> !IsPhone(phone)
      ensures var (s, reply) := Send(cfg, old(Value()), phone, day, code, dailyTtl);
        if IsPhone(phone) && code != "" && reached then
          && Value() == s
          && (r == SendOk <==> reply.Sent? && delivered)
          && (r == SendTooFrequent <==> reply.TooFrequent?) && (r == SendDailyLimit <==> reply.OverLimit?)
        else Value() == old(Value()) && r in {SendInvalidPhone, SendRedisError}
    {
      var valid := IsValidPhone(phone);
      if !valid {
        return SendInvalidPhone;
      }
      if code == "" || !reached {
        return SendRedisError;
      }
      var reply := EvalSend(phone, day, code, dailyTtl);
      match reply
      case TooFrequent(_) => r := SendTooFrequent;
      case OverLimit(_) => r := SendDailyLimit;
      case Failed(_) => r := SendRedisError;
      case Sent(_) => r := if delivered then SendOk else SendRedisError;
    }

    /** The guess goes to Redis as a C string. */
    method VerifyCode(phone: string, code: string, reached: bool) returns (r: VerifyResult)
      modifies this
      ensures r == VerifyInvalidPhone <==> !IsPhone(phone)
      ensures var (s, reply) := Verify(cfg, old(Value()), phone, Cut(code, '\0'));
        if IsPhone(phone) && reached then
          && Value() == s
          && (r == VerifyOk <==> reply.Accepted?) && (r == EmptyCode <==> reply.Missing?)
          && (r == WrongCode <==> reply.Wrong?) && (r == TooManyAttempts <==> reply.Voided?)
        else Value() == old(Value()) && r in {VerifyInvalidPhone, VerifyRedisError}
    {
      var valid := IsValidPhone(phone);
      if !valid {
        return VerifyInvalidPhone;
      }
      if !reached {
        return VerifyRedisError;
      }
      var reply := EvalVerify(phone, Cut(code, '\0'));
      match reply
      case Accepted => r := VerifyOk;
      case Missing => r := EmptyCode;
      case Wrong(_) => r := WrongCode;
      case Voided => r := TooManyAttempts;
    }
  }
}
