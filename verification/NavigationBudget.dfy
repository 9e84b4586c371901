/** The budget that all connections of one browser navigation share. */
module NavigationBudget {
  import opened Model

  // ----- Failures and limits -----

  datatype Failure =
    | RequestLimit | RedirectLimit | TransferLimit | ConcurrencyLimit
    | UnsupportedTarget | InvalidURL | ForbiddenDestination
    | Other(code: nat)

  predicate IsPolicyError(f: Failure) {
    !f.Other?
  }

  const MAX_BROWSER_REQUESTS := 4096
  const MAX_BROWSER_REDIRECTS := 10
  const MAX_BROWSER_BYTES := 16777216
  const MAX_INT64 := 0x7FFF_FFFF_FFFF_FFFF

  datatype Config = Config(maxRequests: int, maxRedirects: int, maxTransferBytes: int)

  /** What the browser client demands of its configuration. */
  predicate ValidConfig(c: Config) {
    && 0 < c.maxRequests <= MAX_BROWSER_REQUESTS
    && 0 <= c.maxRedirects <= MAX_BROWSER_REDIRECTS
    && 0 < c.maxTransferBytes <= MAX_BROWSER_BYTES
  }

  // ----- The budget as a value -----

  datatype Budget = Budget(
    config: Config, requests: int, proxyRequests: int, redirects: int, transferBytes: int, decodedBytes: int,
    policyErr: Option<Failure>, infraErr: Option<Failure>, done: bool)

  /** One call. parseError is what parsing the URL of an authorization yields. */
  datatype Call =
    | Authorize(parseError: Option<Failure>, redirect: bool)
    | AuthorizeProxy
    | Consume(count: int)
    | ConsumeDecoded(count: int)
    | FailPolicy(err: Option<Failure>)
    | FailInfrastructure(err: Option<Failure>)
    | Fail(err: Option<Failure>)
    | Stop

  function NewBudget(config: Config): Budget {
    Budget(config, 0, 0, 0, 0, 0, None, None, false)
  }

  function SetPolicy(b: Budget, err: Option<Failure>): Budget {
    if err.None? || b.policyErr.Some? then b else b.(policyErr := err, done := true)
  }

  function SetInfra(b: Budget, err: Option<Failure>): Budget {
    if err.None? || b.infraErr.Some? then b else b.(infraErr := err)
  }

  /** The new budget and the error returned. */
  function Apply(b: Budget, call: Call): (Budget, Option<Failure>) {
    match call
    case Authorize(parseError, redirect) =>
      if parseError.Some? then (b, parseError)
      else if b.policyErr.Some? then (b, b.policyErr)
      else if b.requests >= b.config.maxRequests then (b, Some(RequestLimit))
      else
        var counted := b.(requests := b.requests + 1);
        if !redirect then (counted, None)
        else if b.redirects >= b.config.maxRedirects then (counted, Some(RedirectLimit))
        else (counted.(redirects := b.redirects + 1), None)
    case AuthorizeProxy =>
      if b.policyErr.Some? then (b, b.policyErr)
      else if b.proxyRequests >= b.config.maxRequests then (b, Some(RequestLimit))
      else (b.(proxyRequests := b.proxyRequests + 1), None)
    case Consume(count) =>
      if count <= 0 then (b, None)
      else if b.policyErr.Some? then (b, b.policyErr)
      else if count > b.config.maxTransferBytes - b.transferBytes then (b, Some(TransferLimit))
      else (b.(transferBytes := b.transferBytes + count), None)
    case ConsumeDecoded(count) =>
      if count <= 0 then (b, None)
      else if b.policyErr.Some? then (b, b.policyErr)
      else if count > b.config.maxTransferBytes - b.decodedBytes then (b, Some(TransferLimit))
      else (b.(decodedBytes := b.decodedBytes + count), None)
    case FailPolicy(err) => (SetPolicy(b, err), None)
    case FailInfrastructure(err) => (SetInfra(b, err), None)
    case Fail(err) =>
      if err.Some? && IsPolicyError(err.value) then (SetPolicy(b, err), None) else (SetInfra(b, err), None)
    case Stop => (b.(done := true), None)
  }

  /** A policy error outranks any infrastructure error. */
  function FailureOf(b: Budget): Option<Failure> {
    if b.policyErr.Some? then b.policyErr else b.infraErr
  }

  // ----- The budget as an object -----

  class SharedBudget {
    const config: Config
    var requests: int
    var proxyRequests: int
    var redirects: int
    var transferBytes: int
    var decodedBytes: int
    var policyErr: Option<Failure>
    var infraErr: Option<Failure>
    var done: bool

    ghost function State(): Budget
      reads this
    {
      Budget(config, requests, proxyRequests, redirects, transferBytes, decodedBytes, policyErr, infraErr, done)
    }

    constructor (config: Config)
      ensures State() == NewBudget(config)
    {
      this.config := config;
      requests, proxyRequests, redirects, transferBytes, decodedBytes := 0, 0, 0, 0, 0;
      policyErr, infraErr, done := None, None, false;
    }

    method Authorize(parseError: Option<Failure>, redirect: bool) returns (err: Option<Failure>)
      modifies this
      ensures (State(), err) == Apply(old(State()), Call.Authorize(parseError, redirect))
      ensures Inv(old(State())) ==> Inv(State())
      ensures err.None? ==> requests == old(requests) + 1 && redirects == old(redirects) + if redirect then 1 else 0
      ensures parseError.None? && old(policyErr).None? && old(requests) < config.maxRequests ==> requests == old(requests) + 1
    {
      if parseError.Some? {
        return parseError;
      }
      if policyErr.Some? {
        return policyErr;
      }
      if requests >= config.maxRequests {
        return Some(RequestLimit);
      }
      requests := requests + 1;
      if redirect {
        if redirects >= config.maxRedirects {
          return Some(RedirectLimit);
        }
        redirects := redirects + 1;
      }
      err := None;
    }

    method AuthorizeProxy() returns (err: Option<Failure>)
      modifies this
      ensures (State(), err) == Apply(old(State()), Call.AuthorizeProxy)
      ensures Inv(old(State())) ==> Inv(State())
    {
      if policyErr.Some? {
        return policyErr;
      }
      if proxyRequests >= config.maxRequests {
        return Some(RequestLimit);
      }
      proxyRequests := proxyRequests + 1;
      err := None;
    }

    method Consume(count: int) returns (err: Option<Failure>)
      modifies this
      ensures (State(), err) == Apply(old(State()), Call.Consume(count))
      ensures Inv(old(State())) ==> Inv(State())
      ensures err.None? ==> transferBytes == old(transferBytes) + if count > 0 then count else 0
      ensures err.Some? ==> State() == old(State())
    {
      if count <= 0 {
        return None;
      }
      if policyErr.Some? {
        return policyErr;
      }
      if count > config.maxTransferBytes - transferBytes {
        return Some(TransferLimit);
      }
      transferBytes := transferBytes + count;
      err := None;
    }

    method ConsumeDecoded(count: int) returns (err: Option<Failure>)
      modifies this
      ensures (State(), err) == Apply(old(State()), Call.ConsumeDecoded(count))
      ensures Inv(old(State())) ==> Inv(State())
      ensures err.None? ==> decodedBytes == old(decodedBytes) + if count > 0 then count else 0
      ensures err.Some? ==> State() == old(State())
    {
      if count <= 0 {
        return None;
      }
      if policyErr.Some? {
        return policyErr;
      }
      if count > config.maxTransferBytes - decodedBytes {
        return Some(TransferLimit);
      }
      decodedBytes := decodedBytes + count;
      err := None;
    }

    method FailPolicy(err: Option<Failure>)
      modifies this
      ensures State() == Apply(old(State()), Call.FailPolicy(err)).0
      ensures Inv(old(State())) ==> Inv(State())
      ensures err.Some? ==> policyErr.Some? && (old(policyErr).Some? ==> policyErr == old(policyErr))
    {
      if err.None? {
        return;
      }
      if policyErr.None? {
        policyErr := err;
        Stop();
      }
    }

    method FailInfrastructure(err: Option<Failure>)
      modifies this
      ensures State() == Apply(old(State()), Call.FailInfrastructure(err)).0
      ensures Inv(old(State())) ==> Inv(State())
    {
      if err.Some? && infraErr.None? {
        infraErr := err;
      }
    }

    method Fail(err: Option<Failure>)
      modifies this
      ensures State() == Apply(old(State()), Call.Fail(err)).0
      ensures Inv(old(State())) ==> Inv(State())
    {
      if err.None? {
        return;
      }
      if IsPolicyError(err.value) {
        FailPolicy(err);
      } else {
        FailInfrastructure(err);
      }
    }

    method Stop()
      modifies this
      ensures State() == Apply(old(State()), Call.Stop).0
      ensures Inv(old(State())) ==> Inv(State())
    {
      done := true;
    }

    method Failure() returns (err: Option<Failure>)
      ensures err == FailureOf(State())
    {
      if policyErr.Some? {
        return policyErr;
      }
      err := infraErr;
    }
  }

  // ----- What every call keeps -----

  ghost predicate Inv(b: Budget) {
    && ValidConfig(b.config)
    && 0 <= b.requests <= b.config.maxRequests
    && 0 <= b.proxyRequests <= b.config.maxRequests
    && 0 <= b.redirects <= b.config.maxRedirects
    && b.redirects <= b.requests
    && 0 <= b.transferBytes <= b.config.maxTransferBytes
    && 0 <= b.decodedBytes <= b.config.maxTransferBytes
    && (b.policyErr.Some? ==> b.done)
  }

  ghost function Run(b: Budget, calls: seq<Call>): Budget {
    if calls == [] then b else Apply(Run(b, calls[..|calls| - 1]), calls[|calls| - 1]).0
  }

  /** Over every sequence of calls, all counters stay within their ceilings, and so far from the ends of int64. */
  lemma {:induction false} RunsKeepInv(config: Config, calls: seq<Call>)
    requires ValidConfig(config)
    ensures Inv(Run(NewBudget(config), calls)) && Run(NewBudget(config), calls).config == config
    ensures var b := Run(NewBudget(config), calls);
            0 <= b.config.maxTransferBytes - b.transferBytes <= MAX_INT64 && 0 <= b.transferBytes + b.config.maxTransferBytes <= MAX_INT64
  {
    if calls != [] { RunsKeepInv(config, calls[..|calls| - 1]); }
  }

  // ----- The first error stays -----

  /** The policy error that a call reports, if any. */
  function PolicyOf(call: Call): Option<Failure> {
    match call
    case FailPolicy(err) => err
    case Fail(err) => if err.Some? && IsPolicyError(err.value) then err else None
    case _ => None
  }

  function InfraOf(call: Call): Option<Failure> {
    match call
    case FailInfrastructure(err) => err
    case Fail(err) => if err.Some? && !IsPolicyError(err.value) then err else None
    case _ => None
  }

  /** The earliest reported error of either kind. */
  function First(errors: seq<Option<Failure>>): Option<Failure> {
    if errors == [] then None
    else
      var before := First(errors[..|errors| - 1]);
      if before.Some? then before else errors[|errors| - 1]
  }

  function PolicyErrors(calls: seq<Call>): (r: seq<Option<Failure>>)
    ensures |r| == |calls|
  {
    seq(|calls|, i requires 0 <= i < |calls| => PolicyOf(calls[i]))
  }

  function InfraErrors(calls: seq<Call>): (r: seq<Option<Failure>>)
    ensures |r| == |calls|
  {
    seq(|calls|, i requires 0 <= i < |calls| => InfraOf(calls[i]))
  }

  lemma StepErrors(b: Budget, call: Call)
    ensures var after := Apply(b, call).0;
            && after.policyErr == (if b.policyErr.Some? then b.policyErr else PolicyOf(call))
            && after.infraErr == (if b.infraErr.Some? then b.infraErr else InfraOf(call))
  {
  }

  lemma StepStops(b: Budget, call: Call)
    requires b.policyErr.Some? ==> b.done
    ensures Apply(b, call).0.done <==> b.done || call == Stop || Apply(b, call).0.policyErr.Some?
  {
  }

  /** Over a whole run each kind of error is the first one reported of that kind. */
  lemma {:induction false} ErrorsAreFirst(config: Config, calls: seq<Call>)
    ensures Run(NewBudget(config), calls).policyErr == First(PolicyErrors(calls))
    ensures Run(NewBudget(config), calls).infraErr == First(InfraErrors(calls))
  {
    if calls != [] {
      var init := calls[..|calls| - 1];
      ErrorsAreFirst(config, init);
      StepErrors(Run(NewBudget(config), init), calls[|calls| - 1]);
      assert PolicyErrors(calls)[..|calls| - 1] == PolicyErrors(init);
      assert InfraErrors(calls)[..|calls| - 1] == InfraErrors(init);
    }
  }

  lemma InLast(calls: seq<Call>, call: Call)
    requires calls != []
    ensures call in calls <==> call in calls[..|calls| - 1] || call == calls[|calls| - 1]
  {
    assert calls == calls[..|calls| - 1] + [calls[|calls| - 1]];
  }

  /** Stopping is permanent, and happens exactly by a stop or a policy error. */
  lemma {:induction false} DoneMeans(config: Config, calls: seq<Call>)
    ensures var b := Run(NewBudget(config), calls);
            b.done <==> b.policyErr.Some? || Stop in calls
  {
    if calls != [] {
      var init, last := calls[..|calls| - 1], calls[|calls| - 1];
      DoneMeans(config, init);
      StepStops(Run(NewBudget(config), init), last);
      StepErrors(Run(NewBudget(config), init), last);
      InLast(calls, Stop);
    }
  }

  /** Whatever the order of the reports, the verdict of a navigation is its first policy error, else its first other error. */
  lemma PolicyOutranksInfrastructure(config: Config, calls: seq<Call>)
    ensures FailureOf(Run(NewBudget(config), calls))
         == if First(PolicyErrors(calls)).Some? then First(PolicyErrors(calls)) else First(InfraErrors(calls))
  {
    ErrorsAreFirst(config, calls);
  }

  predicate AsksForAGrant(call: Call) {
    || (call.Authorize? && call.parseError.None?)
    || call.AuthorizeProxy?
    || (call.Consume? && call.count > 0)
    || (call.ConsumeDecoded? && call.count > 0)
  }

  /** After a policy error every positive grant is refused with that error, and no counter moves again. */
  lemma {:induction false} NothingAfterPolicyError(b: Budget, calls: seq<Call>)
    requires b.policyErr.Some? && b.done
    ensures var after := Run(b, calls);
            after == b.(infraErr := after.infraErr)
    ensures forall call: Call :: AsksForAGrant(call) ==> Apply(Run(b, calls), call) == (Run(b, calls), b.policyErr)
  {
    if calls != [] { NothingAfterPolicyError(b, calls[..|calls| - 1]); }
  }

  // ----- Conservation -----

  /** What one call is granted in bytes. */
  function Grant(b: Budget, call: Call): int {
    if call.Consume? && call.count > 0 && Apply(b, call).1.None? then call.count else 0
  }

  /** An authorization counts once its URL parses, unless it is refused by a policy error or by the request limit. */
  predicate Counts(b: Budget, call: Call) {
    call.Authorize? && call.parseError.None? && b.policyErr.None? && Apply(b, call).1 != Some(RequestLimit)
  }

  predicate CountsAsRedirect(b: Budget, call: Call) {
    Counts(b, call) && call.redirect && Apply(b, call).1.None?
  }

  /** The sum of a quantity of single calls over a run. */
  ghost function Tally(b: Budget, calls: seq<Call>, of: (Budget, Call) -> int): int {
    if calls == [] then 0
    else
      var init := calls[..|calls| - 1];
      Tally(b, init, of) + of(Run(b, init), calls[|calls| - 1])
  }

  lemma StepCounts(b: Budget, call: Call)
    ensures Apply(b, call).0.transferBytes == b.transferBytes + Grant(b, call)
    ensures Apply(b, call).0.requests == b.requests + if Counts(b, call) then 1 else 0
    ensures Apply(b, call).0.redirects == b.redirects + if CountsAsRedirect(b, call) then 1 else 0
  {
  }

  /** The counters are what was granted: nothing is charged twice, and nothing granted goes uncharged. */
  lemma {:induction false} CountersBalance(config: Config, calls: seq<Call>)
    ensures var b := Run(NewBudget(config), calls);
            && b.transferBytes == Tally(NewBudget(config), calls, Grant)
            && b.requests == Tally(NewBudget(config), calls, (b, call) => if Counts(b, call) then 1 else 0)
            && b.redirects == Tally(NewBudget(config), calls, (b, call) => if CountsAsRedirect(b, call) then 1 else 0)
  {
    if calls != [] {
      var init := calls[..|calls| - 1];
      CountersBalance(config, init);
      StepCounts(Run(NewBudget(config), init), calls[|calls| - 1]);
    }
  }

  // ----- What a caller may rely on -----

  lemma {:induction false} ConfigStays(config: Config, calls: seq<Call>)
    ensures Run(NewBudget(config), calls).config == config
  {
    if calls != [] {
      ConfigStays(config, calls[..|calls| - 1]);
      StepConfig(Run(NewBudget(config), calls[..|calls| - 1]), calls[|calls| - 1]);
    }
  }

  lemma StepConfig(b: Budget, call: Call)
    ensures Apply(b, call).0.config == b.config
  {
  }

  /**
   * Whatever was called before: bytes are granted exactly if no policy error has been reported and they fit together
   * with all that was granted so far; the first policy error takes precedence over the limit.
   */
  lemma ConsumptionIsExact(config: Config, calls: seq<Call>, count: int)
    requires count > 0
    ensures var reported, granted := First(PolicyErrors(calls)), Tally(NewBudget(config), calls, Grant);
            Apply(Run(NewBudget(config), calls), Consume(count)).1
            == if reported.Some? then reported
               else if granted + count <= config.maxTransferBytes then None
               else Some(TransferLimit)
  {
    ErrorsAreFirst(config, calls);
    CountersBalance(config, calls);
    ConfigStays(config, calls);
  }

  /** A request for a parsed URL is granted exactly within both limits, counting what was counted so far. */
  lemma AuthorizationIsExact(config: Config, calls: seq<Call>, redirect: bool)
    ensures var reported := First(PolicyErrors(calls));
            var counted := Tally(NewBudget(config), calls, (b, call) => if Counts(b, call) then 1 else 0);
            var redirected := Tally(NewBudget(config), calls, (b, call) => if CountsAsRedirect(b, call) then 1 else 0);
            Apply(Run(NewBudget(config), calls), Authorize(None, redirect)).1
            == if reported.Some? then reported
               else if counted >= config.maxRequests then Some(RequestLimit)
               else if redirect && redirected >= config.maxRedirects then Some(RedirectLimit)
               else None
  {
    ErrorsAreFirst(config, calls);
    CountersBalance(config, calls);
    ConfigStays(config, calls);
  }

  // ----- Decoded bytes and proxied connections have counters of their own -----

  function DecodedGrant(b: Budget, call: Call): int {
    if call.ConsumeDecoded? && call.count > 0 && Apply(b, call).1.None? then call.count else 0
  }

  function ProxyGrant(b: Budget, call: Call): int {
    if call.AuthorizeProxy? && Apply(b, call).1.None? then 1 else 0
  }

  lemma StepOwnCounts(b: Budget, call: Call)
    ensures Apply(b, call).0.decodedBytes == b.decodedBytes + DecodedGrant(b, call)
    ensures Apply(b, call).0.proxyRequests == b.proxyRequests + ProxyGrant(b, call)
  {
  }

  lemma {:induction false} OwnCountersBalance(config: Config, calls: seq<Call>)
    ensures var b := Run(NewBudget(config), calls);
            && b.decodedBytes == Tally(NewBudget(config), calls, DecodedGrant)
            && b.proxyRequests == Tally(NewBudget(config), calls, ProxyGrant)
  {
    if calls != [] {
      var init := calls[..|calls| - 1];
      OwnCountersBalance(config, init);
      StepOwnCounts(Run(NewBudget(config), init), calls[|calls| - 1]);
    }
  }

  /** Decoded bytes fill a limit of the same size, whatever was transferred. */
  lemma DecodingIsExact(config: Config, calls: seq<Call>, count: int)
    requires count > 0
    ensures var reported, granted := First(PolicyErrors(calls)), Tally(NewBudget(config), calls, DecodedGrant);
            Apply(Run(NewBudget(config), calls), ConsumeDecoded(count)).1
            == if reported.Some? then reported
               else if granted + count <= config.maxTransferBytes then None
               else Some(TransferLimit)
  {
    ErrorsAreFirst(config, calls);
    OwnCountersBalance(config, calls);
    ConfigStays(config, calls);
  }

  /** Proxied connections are granted up to the request limit, whatever was requested. */
  lemma ProxyingIsExact(config: Config, calls: seq<Call>)
    ensures var reported, granted := First(PolicyErrors(calls)), Tally(NewBudget(config), calls, ProxyGrant);
            Apply(Run(NewBudget(config), calls), AuthorizeProxy).1
            == if reported.Some? then reported
               else if granted < config.maxRequests then None
               else Some(RequestLimit)
  {
    ErrorsAreFirst(config, calls);
    OwnCountersBalance(config, calls);
    ConfigStays(config, calls);
  }

  lemma RunSplits(b: Budget, calls: seq<Call>, call: Call)
    ensures Run(b, calls + [call]) == Apply(Run(b, calls), call).0
  {
    assert (calls + [call])[..|calls|] == calls;
  }

  /** Once a policy error has been reported, it stays the failure of the navigation, whatever is called afterwards. */
  lemma {:induction false} PolicyErrorIsPermanent(config: Config, calls: seq<Call>, later: seq<Call>)
    requires First(PolicyErrors(calls)).Some?
    ensures var b := Run(NewBudget(config), calls + later);
            b.done && b.policyErr == FailureOf(b) == First(PolicyErrors(calls))
    decreases |later|
  {
    if later == [] {
      assert calls + later == calls;
      ErrorsAreFirst(config, calls);
      DoneMeans(config, calls);
    } else {
      var init, last := later[..|later| - 1], later[|later| - 1];
      PolicyErrorIsPermanent(config, calls, init);
      assert calls + later == (calls + init) + [last];
      RunSplits(NewBudget(config), calls + init, last);
      KeepsPolicy(Run(NewBudget(config), calls + init), last);
    }
  }

  lemma KeepsPolicy(b: Budget, call: Call)
    requires b.policyErr.Some? && b.done
    ensures Apply(b, call).0.policyErr == b.policyErr && Apply(b, call).0.done
  {
  }
}
