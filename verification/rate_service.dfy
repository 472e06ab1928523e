/** The rate limit service: it looks up the limits of a request in the configuration, has the cache judge
    them, and swaps the configuration when a new one loads. */
module RateService {
  import opened Common
  import opened RateAccounting
  import opened RateStore
  import opened RateCache
  import RateConfig

  datatype RateLimitRequest = RateLimitRequest(domain: string, descriptors: seq<Descriptor>, hitsAddend: uint32)

  datatype Response = Response(overallCode: Code, statuses: seq<Status>)

  datatype Outcome = Answered(response: Response) | RedisFailed | ServiceFailed(message: string)

  datatype ServiceStats = ServiceStats(
    configLoadSuccess: nat, configLoadError: nat, redisError: nat, serviceError: nat)

  /** The limit as the cache uses it: `near` gives the near threshold of a limit. */
  function ToLimit(l: RateConfig.RateLimit, near: uint32 -> uint32): Limit {
    Limit(l.fullKey, l.requestsPerUnit, l.unit, near(l.requestsPerUnit))
  }

  function LimitFor(domains: RateConfig.Domains, domain: string, d: Descriptor, near: uint32 -> uint32): Option<Limit> {
    match RateConfig.GetLimit(domains, domain, d)
    case None => None
    case Some(l) => Some(ToLimit(l, near))
  }

  function LimitsFor(domains: RateConfig.Domains, domain: string, ds: seq<Descriptor>, near: uint32 -> uint32)
    : (limits: seq<Option<Limit>>)
    ensures |limits| == |ds| && forall i :: 0 <= i < |ds| ==> limits[i] == LimitFor(domains, domain, ds[i], near)
    ensures (forall n :: near(n) <= n) ==> WellFormed(limits)
  {
    seq(|ds|, i requires 0 <= i < |ds| => LimitFor(domains, domain, ds[i], near))
  }

  /** Why a request is refused before any limit is looked up. */
  function Refusal(request: RateLimitRequest, configured: bool): Option<string> {
    if request.domain == "" then Some("rate limit domain must not be empty")
    else if request.descriptors == [] then Some("rate limit descriptor list must not be empty")
    else if !configured then Some("no rate limit configuration loaded")
    else None
  }

  class Service {
    const cache: RateLimitCache
    const near: uint32 -> uint32
    var config: Option<RateConfig.Domains>
    var stats: ServiceStats

    /** The near threshold never exceeds the limit; statistics and connections belong to the cache. */
    ghost predicate Valid() {
      forall n :: near(n) <= n
    }

    constructor (cache: RateLimitCache, near: uint32 -> uint32)
      requires forall n :: near(n) <= n
      ensures Valid() && this.cache == cache && this.near == near
      ensures config == None && stats == ServiceStats(0, 0, 0, 0)
    {
      this.cache, this.near, config, stats := cache, near, None, ServiceStats(0, 0, 0, 0);
    }

    /** The answer to a query before any counting. */
    function Query(domain: string, d: Descriptor): Option<RateConfig.RateLimit>
      reads this
    {
      if config.None? then None else RateConfig.GetLimit(config.value, domain, d)
    }

    /** All files load into a new configuration, which replaces the old one as a whole; one file that is
        refused keeps the old one, and with it the answer to every query. */
    method ReloadConfig(files: seq<RateConfig.File>)
      modifies this
      ensures RateConfig.LoadFiles(files).Success? <==> RateConfig.AcceptableFiles(files)
      ensures RateConfig.AcceptableFiles(files) ==>
                && config == Some(RateConfig.LoadFiles(files).value)
                && stats == old(stats).(configLoadSuccess := old(stats.configLoadSuccess) + 1)
      ensures !RateConfig.AcceptableFiles(files) ==>
                && config == old(config)
                && stats == old(stats).(configLoadError := old(stats.configLoadError) + 1)
                && forall domain, d :: Query(domain, d) == old(Query(domain, d))
    {
      RateConfig.ConfigurationAnswers(files);
      var loaded := new RateConfig.RateLimitConfig();
      var error: Option<RateConfig.ConfigError> := None;
      var i := 0;
      while i < |files| && error.None?
        invariant i <= |files| && fresh(loaded)
        invariant error.None? ==> RateConfig.LoadFiles(files[..i]) == RateConfig.Success(loaded.domains)
        invariant error.Some? ==> RateConfig.LoadFiles(files).Failure?
        modifies loaded
      {
        assert files[..i + 1][..i] == files[..i];
        FilesFailureStays(files, i + 1);
        error := loaded.LoadConfig(files[i]);
        i := i + 1;
      }
      if error.Some? {
        stats := stats.(configLoadError := stats.configLoadError + 1);
        return;
      }
      assert files[..i] == files;
      stats := stats.(configLoadSuccess := stats.configLoadSuccess + 1);
      config := Some(loaded.domains);
    }

    /** The overall code of the statuses: the last one that is over its limit decides. */
    method Aggregate(statuses: seq<Status>) returns (response: Response)
      ensures response.statuses == statuses
      ensures response.overallCode == OVER_LIMIT <==> exists s :: s in statuses && s.code == OVER_LIMIT
    {
      var finalCode := OK;
      var copied := [];
      var i := 0;
      while i < |statuses|
        invariant i <= |statuses| && copied == statuses[..i]
        invariant finalCode == OVER_LIMIT <==> exists k :: 0 <= k < i && statuses[k].code == OVER_LIMIT
      {
        copied := copied + [statuses[i]];
        if statuses[i].code == OVER_LIMIT {
          finalCode := statuses[i].code;
        }
        i := i + 1;
      }
      response := Response(finalCode, copied);
      assert forall k :: 0 <= k < |statuses| ==> statuses[k] in statuses;
    }

    /** One request: refused, failed in Redis, or answered descriptor by descriptor. The limits are those
        of one configuration even if another one loads meanwhile. */
    method ShouldRateLimit(request: RateLimitRequest, now: nat, random: seq<nat>, connected: bool,
                           replies: nat -> Reply)
      returns (outcome: Outcome)
      requires Valid() && |random| == |request.descriptors|
      modifies this, cache, cache.pool
      ensures config == old(config)
      ensures outcome.ServiceFailed? <==> request.domain == "" || request.descriptors == [] || config == None
      ensures var refusal := Refusal(request, config.Some?);
              && (refusal.Some? ==>
                    && outcome == ServiceFailed(refusal.value) && cache.stats == old(cache.stats)
                    && stats == old(stats).(serviceError := old(stats.serviceError) + 1))
              && (refusal.None? && !connected ==>
                    && outcome == RedisFailed && cache.stats == old(cache.stats)
                    && stats == old(stats).(redisError := old(stats.redisError) + 1))
              && (refusal.None? && connected ==>
                    var limits := LimitsFor(config.value, request.domain, request.descriptors, near);
                    var addend := HitsAddend(request.hitsAddend);
                    var o := ReadAll(limits, replies, addend, CountHits(limits, addend, old(cache.stats)));
                    && cache.stats == o.stats
                    && (if o.failed then
                          outcome == RedisFailed && stats == old(stats).(redisError := old(stats.redisError) + 1)
                        else
                          && outcome.Answered? && outcome.response.statuses == o.statuses && stats == old(stats)
                          && (outcome.response.overallCode == OVER_LIMIT
                              <==> exists s :: s in o.statuses && s.code == OVER_LIMIT)))
    {
      var refusal := Refusal(request, config.Some?);
      if refusal.Some? {
        stats := stats.(serviceError := stats.serviceError + 1);
        return ServiceFailed(refusal.value);
      }
      var snapped := config.value;
      var limits := [];
      var i := 0;
      while i < |request.descriptors|
        invariant i <= |request.descriptors| && |limits| == i
        invariant forall k :: 0 <= k < i ==>
                    limits[k] == LimitFor(snapped, request.domain, request.descriptors[k], near)
      {
        limits := limits + [LimitFor(snapped, request.domain, request.descriptors[i], near)];
        i := i + 1;
      }
      assert limits == LimitsFor(snapped, request.domain, request.descriptors, near);
      var r, sent := cache.DoLimit(
        request.domain, request.descriptors, limits, request.hitsAddend, now, random, connected, replies);
      if r.RedisError? {
        stats := stats.(redisError := stats.redisError + 1);
        return RedisFailed;
      }
      var response := Aggregate(r.value);
      outcome := Answered(response);
    }
  }

  lemma {:induction false} FilesFailureStays(files: seq<RateConfig.File>, i: nat)
    requires i <= |files|
    ensures RateConfig.LoadFiles(files[..i]).Failure? ==> RateConfig.LoadFiles(files).Failure?
    decreases |files|
  {
    if i < |files| {
      FilesFailureStays(files[..|files| - 1], i);
      assert files[..|files| - 1][..i] == files[..i];
    } else {
      assert files[..i] == files;
    }
  }

  /** What an answered request means, descriptor by descriptor: the limit is the one that a search of the
      configuration files gives, a descriptor without one is OK, and any other is judged by its own
      reply. */
  lemma AnsweredFromTheFiles(
    files: seq<RateConfig.File>, f: nat, request: RateLimitRequest, near: uint32 -> uint32, replies: nat -> Reply,
    stats: map<string, Stats>, i: nat)
    requires RateConfig.AcceptableFiles(files) && RateConfig.LoadFiles(files).Success?
    requires f < |files| && files[f].root.value.domain == request.domain
    requires (forall n :: near(n) <= n) && i < |request.descriptors|
    requires var limits := LimitsFor(RateConfig.LoadFiles(files).value, request.domain, request.descriptors, near);
             !ReadAll(limits, replies, HitsAddend(request.hitsAddend), stats).failed
    ensures var limits := LimitsFor(RateConfig.LoadFiles(files).value, request.domain, request.descriptors, near);
            var statuses := ReadAll(limits, replies, HitsAddend(request.hitsAddend), stats).statuses;
            && |statuses| == |request.descriptors|
            && (match RateConfig.Search(files[f].root.value.descriptors, request.domain + ".", request.descriptors[i])
                case None => statuses[i] == Status(OK, None, 0)
                case Some(l) =>
                  && statuses[i].limit.Some? && statuses[i].limit.value.id == l.fullKey
                  && statuses[i].limit.value.requestsPerUnit == l.requestsPerUnit
                  && statuses[i].limit.value.unit == l.unit
                  && statuses[i].limit.value.near == near(l.requestsPerUnit))
            && AnswerIs(statuses[i], limits, i, replies, HitsAddend(request.hitsAddend))
  {
    RateConfig.ConfigurationAnswers(files);
    var domains := RateConfig.LoadFiles(files).value;
    assert RateConfig.Answers(domains, files, request.domain, request.descriptors[i]);
    var limits := LimitsFor(domains, request.domain, request.descriptors, near);
    AnswersMatchReplies(limits, replies, HitsAddend(request.hitsAddend), stats);
    assert AnswerIs(ReadAll(limits, replies, HitsAddend(request.hitsAddend), stats).statuses[i], limits, i, replies,
                    HitsAddend(request.hitsAddend));
  }
}
