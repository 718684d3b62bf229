/**
 Policy evaluation: every enabled policy that fits a request has a say, and the strictest one wins.
 */
module Policies {
  import opened Wrappers

  datatype Effect = Allow | RequireHuman | Deny

  function Rank(effect: Effect): nat {
    match effect
    case Allow => 0
    case RequireHuman => 1
    case Deny => 2
  }

  predicate AtMost(left: Effect, right: Effect) {
    Rank(left) <= Rank(right)
  }

  /** A rule's value: a list of names, or anything that is only compared. */
  datatype Value = Names(names: seq<string>) | Plain(text: string)

  /** The items of a `rules` dictionary in order. */
  type Rules = seq<(string, Value)>

  datatype Policy = Policy(id: int, effect: Effect, location: Option<int>, rules: Rules, enabled: bool)

  datatype Request = Request(
    intent: Option<string>, channel: Option<string>, location: Option<int>, context: map<string, Value>)

  const RESERVED := {"intents", "channels", "message"}

  /** The names listed under a rule; none when the rule is missing. */
  function Listed(rules: Rules, name: string): seq<string> {
    if rules == [] then []
    else if rules[0].0 == name then (match rules[0].1 case Names(names) => names case Plain(_) => [])
    else Listed(rules[1..], name)
  }

  predicate Given(name: Option<string>) {
    name.Some? && name.value != ""
  }

  predicate Excluded(names: seq<string>, name: Option<string>) {
    names != [] && Given(name) && name.value !in names
  }

  /** A context value that is there contradicts the rule. */
  predicate Contradicted(rule: (string, Value), context: map<string, Value>) {
    rule.0 !in RESERVED && rule.0 in context && context[rule.0] != rule.1
  }

  ghost predicate Fits(policy: Policy, request: Request) {
    && policy.enabled
    && (policy.location.Some? ==> request.location == policy.location)
    && !Excluded(Listed(policy.rules, "intents"), request.intent)
    && !Excluded(Listed(policy.rules, "channels"), request.channel)
    && forall i :: 0 <= i < |policy.rules| ==> !Contradicted(policy.rules[i], request.context)
  }

  ghost function Matched(policies: seq<Policy>, request: Request): seq<Policy> {
    if policies == [] then [] else
      var rest := Matched(policies[..|policies| - 1], request);
      var last := policies[|policies| - 1];
      if Fits(last, request) then rest + [last] else rest
  }

  /** The strictest effect, ALLOW when there is no policy. */
  function Strictest(policies: seq<Policy>): Effect {
    if policies == [] then Allow else
      var rest, last := Strictest(policies[..|policies| - 1]), policies[|policies| - 1].effect;
      if AtMost(last, rest) then rest else last
  }

  /** What a request comes to. */
  ghost function Outcome(policies: seq<Policy>, request: Request): Effect {
    Strictest(Matched(policies, request))
  }

  // ---------------------------------------------------------------- the join

  lemma {:induction false} StrictestIsTheJoin(policies: seq<Policy>)
    ensures forall policy :: policy in policies ==> AtMost(policy.effect, Strictest(policies))
    ensures Strictest(policies) != Allow ==> exists policy :: policy in policies && policy.effect == Strictest(policies)
    decreases |policies|
  {
    if policies != [] {
      var front, last := policies[..|policies| - 1], policies[|policies| - 1];
      StrictestIsTheJoin(front);
      assert policies == front + [last];
      assert last in policies;
      if Strictest(policies) != Allow && Strictest(policies) != last.effect {
        var policy :| policy in front && policy.effect == Strictest(front);
        assert policy in policies;
      }
    }
  }

  lemma {:induction false} MatchedAreThoseThatFit(policies: seq<Policy>, request: Request)
    ensures forall policy :: policy in Matched(policies, request) <==> policy in policies && Fits(policy, request)
    decreases |policies|
  {
    if policies != [] {
      MatchedAreThoseThatFit(policies[..|policies| - 1], request);
      assert policies == policies[..|policies| - 1] + [policies[|policies| - 1]];
    }
  }

  lemma {:induction false} ListedUnderTheRule(rules: Rules, name: string, k: nat)
    requires k < |rules| && rules[k].0 == name
    requires forall i, j :: 0 <= i < j < |rules| ==> rules[i].0 != rules[j].0
    ensures Listed(rules, name) == if rules[k].1.Names? then rules[k].1.names else []
  {
    if k > 0 { ListedUnderTheRule(rules[1..], name, k - 1); }
  }

  lemma {:induction false} NothingListed(rules: Rules, name: string)
    requires forall i :: 0 <= i < |rules| ==> rules[i].0 != name
    ensures Listed(rules, name) == []
  {
    if rules != [] { NothingListed(rules[1..], name); }
  }

  /** A name is kept out exactly when some rule of that key lists names and not this one. */
  lemma ExcludedByTheRule(rules: Rules, key: string, name: Option<string>)
    requires forall i, j :: 0 <= i < j < |rules| ==> rules[i].0 != rules[j].0
    ensures !Excluded(Listed(rules, key), name) <==>
            forall i :: 0 <= i < |rules| && rules[i].0 == key && rules[i].1.Names? && name.Some? && name.value != "" ==>
              rules[i].1.names == [] || name.value in rules[i].1.names
  {
    if k :| 0 <= k < |rules| && rules[k].0 == key {
      ListedUnderTheRule(rules, key, k);
    } else {
      NothingListed(rules, key);
    }
  }

  /**
   A policy is matched exactly when it is enabled, is for no location or the request's, and no rule is against it: an
   intent or a channel has to be among those listed, if any are listed and one is given; the message does not count;
   a context value under any other key has to be the rule's, if there is one.
   */
  lemma MatchedExactlyWhen(policies: seq<Policy>, policy: Policy, request: Request)
    requires policy in policies
    requires forall i, j :: 0 <= i < j < |policy.rules| ==> policy.rules[i].0 != policy.rules[j].0
    ensures policy in Matched(policies, request) <==>
            && policy.enabled
            && (policy.location.Some? ==> request.location == policy.location)
            && forall i :: 0 <= i < |policy.rules| ==>
                 var (key, value) := policy.rules[i];
                 && (key == "intents" && value.Names? && request.intent.Some? && request.intent.value != "" ==>
                       value.names == [] || request.intent.value in value.names)
                 && (key == "channels" && value.Names? && request.channel.Some? && request.channel.value != "" ==>
                       value.names == [] || request.channel.value in value.names)
                 && (key != "intents" && key != "channels" && key != "message" && key in request.context ==>
                       request.context[key] == value)
  {
    MatchedAreThoseThatFit(policies, request);
    ExcludedByTheRule(policy.rules, "intents", request.intent);
    ExcludedByTheRule(policy.rules, "channels", request.channel);
    hide Excluded;
    hide Listed;
  }

  /** They come in the order of the policies: what two lists match together is what the one matches, then the other. */
  lemma {:induction false} MatchedKeepsOrder(policies: seq<Policy>, more: seq<Policy>, request: Request)
    ensures Matched(policies + more, request) == Matched(policies, request) + Matched(more, request)
    decreases |more|
  {
    if more == [] {
      assert policies + more == policies;
    } else {
      var front := more[..|more| - 1];
      assert (policies + more)[..|policies + more| - 1] == policies + front;
      MatchedKeepsOrder(policies, front, request);
    }
  }

  lemma MoreIsStricter(some: seq<Policy>, all: seq<Policy>)
    requires forall policy :: policy in some ==> policy in all
    ensures AtMost(Strictest(some), Strictest(all))
  {
    StrictestIsTheJoin(some);
    StrictestIsTheJoin(all);
  }

  /** Adding policies, wherever priority puts them, never relaxes the outcome; so their order does not matter either. */
  lemma AddingNeverRelaxes(some: seq<Policy>, all: seq<Policy>, request: Request)
    requires forall policy :: policy in some ==> policy in all
    ensures AtMost(Outcome(some, request), Outcome(all, request))
    ensures (forall policy :: policy in all ==> policy in some) ==> Outcome(some, request) == Outcome(all, request)
  {
    MatchedAreThoseThatFit(some, request);
    MatchedAreThoseThatFit(all, request);
    MoreIsStricter(Matched(some, request), Matched(all, request));
    if forall policy :: policy in all ==> policy in some {
      MoreIsStricter(Matched(all, request), Matched(some, request));
    }
  }

  /** A request is denied, or left to a human, exactly when a fitting policy says so and none is stricter. */
  lemma OutcomeOfTheStrictest(policies: seq<Policy>, request: Request)
    ensures Outcome(policies, request) == Deny <==>
            exists policy :: policy in policies && Fits(policy, request) && policy.effect == Deny
    ensures Outcome(policies, request) == Allow <==>
            forall policy :: policy in policies && Fits(policy, request) ==> policy.effect == Allow
  {
    MatchedAreThoseThatFit(policies, request);
    StrictestIsTheJoin(Matched(policies, request));
  }

  // ---------------------------------------------------------------- knowing more about a request

  /** `more` says what `less` says, and possibly an intent, a channel or context values `less` is silent on. */
  ghost predicate SaysMore(more: Request, less: Request) {
    && more.location == less.location
    && (Given(less.intent) ==> more.intent == less.intent)
    && (Given(less.channel) ==> more.channel == less.channel)
    && forall key :: key in less.context ==> key in more.context && more.context[key] == less.context[key]
  }

  lemma SayingMoreFitsLess(policy: Policy, more: Request, less: Request)
    requires SaysMore(more, less) && Fits(policy, more)
    ensures Fits(policy, less)
  {
    forall i | 0 <= i < |policy.rules|
      ensures !Contradicted(policy.rules[i], less.context)
    {
      assert !Contradicted(policy.rules[i], more.context);
    }
  }

  /** A missing fact counts as a match, so supplying an intent, a channel or context never tightens the outcome. */
  lemma SayingMoreNeverTightens(policies: seq<Policy>, more: Request, less: Request)
    requires SaysMore(more, less)
    ensures AtMost(Outcome(policies, more), Outcome(policies, less))
  {
    MatchedAreThoseThatFit(policies, more);
    MatchedAreThoseThatFit(policies, less);
    forall policy | policy in Matched(policies, more)
      ensures policy in Matched(policies, less)
    {
      SayingMoreFitsLess(policy, more, less);
    }
    MoreIsStricter(Matched(policies, more), Matched(policies, less));
  }

  /** With a location it is the other way round: a missing one keeps that location's policies out. */
  lemma NamingALocationNeverRelaxes(policies: seq<Policy>, request: Request, location: int)
    requires request.location == None
    ensures AtMost(Outcome(policies, request), Outcome(policies, request.(location := Some(location))))
  {
    var located := request.(location := Some(location));
    MatchedAreThoseThatFit(policies, request);
    MatchedAreThoseThatFit(policies, located);
    MoreIsStricter(Matched(policies, request), Matched(policies, located));
  }

  // ---------------------------------------------------------------- the program

  /** The inner loop over a policy's rules, left at the first contradiction. */
  method RulesHold(rules: Rules, context: map<string, Value>) returns (hold: bool)
    ensures hold <==> forall i :: 0 <= i < |rules| ==> !Contradicted(rules[i], context)
  {
    for i := 0 to |rules|
      invariant forall k :: 0 <= k < i ==> !Contradicted(rules[k], context)
    {
      var (key, expected) := rules[i];
      if key in RESERVED { continue; }
      if key in context && context[key] != expected {
        assert Contradicted(rules[i], context);
        return false;
      }
    }
    hold := true;
  }

  method FindMatched(policies: seq<Policy>, request: Request) returns (matched: seq<Policy>)
    ensures matched == Matched(policies, request)
  {
    matched := [];
    for i := 0 to |policies|
      invariant matched == Matched(policies[..i], request)
    {
      assert policies[..i + 1][..i] == policies[..i];
      var policy := policies[i];
      if !policy.enabled { continue; }
      if policy.location.Some? && request.location.Some? && policy.location != request.location { continue; }
      if policy.location.Some? && request.location.None? { continue; }
      if Excluded(Listed(policy.rules, "intents"), request.intent) { continue; }
      if Excluded(Listed(policy.rules, "channels"), request.channel) { continue; }
      var hold := RulesHold(policy.rules, request.context);
      if hold {
        matched := matched + [policy];
      }
    }
    assert policies[..|policies|] == policies;
  }

  lemma StrictestSnoc(policies: seq<Policy>, last: Policy)
    ensures Strictest(policies + [last]) ==
            if AtMost(last.effect, Strictest(policies)) then Strictest(policies) else last.effect
  {
    assert (policies + [last])[..|policies|] == policies;
  }

  lemma DenyDecides(some: seq<Policy>, all: seq<Policy>)
    requires some <= all && Strictest(some) == Deny
    ensures Strictest(all) == Deny
  {
    MoreIsStricter(some, all);
  }

  lemma NoPolicies()
    ensures Strictest([]) == Allow
  {
  }

  /** The loop over the matched policies: leaving at the first DENY loses nothing but the reasons behind it. */
  method Decide(matched: seq<Policy>) returns (effect: Effect, reasons: seq<Policy>)
    ensures effect == Strictest(matched)
    ensures reasons <= matched && (effect != Deny ==> reasons == matched)
    ensures effect == Deny ==> reasons != [] && reasons[|reasons| - 1].effect == Deny
    ensures forall i :: 0 <= i < |reasons| - 1 ==> reasons[i].effect != Deny
  {
    hide Strictest;
    NoPolicies();
    effect, reasons := Allow, [];
    for i := 0 to |matched|
      invariant reasons == matched[..i]
      invariant effect == Strictest(reasons) && effect != Deny
      invariant forall k :: 0 <= k < i ==> matched[k].effect != Deny
    {
      var policy := matched[i];
      StrictestSnoc(reasons, policy);
      reasons := reasons + [policy];
      if policy.effect == Deny {
        effect := Deny;
        DenyDecides(reasons, matched);
        return;
      }
      if policy.effect == RequireHuman && effect != Deny {
        effect := RequireHuman;
      }
    }
    assert reasons == matched;
  }

  method Evaluate(policies: seq<Policy>, request: Request)
    returns (effect: Effect, matched: seq<Policy>, reasons: seq<Policy>)
    ensures effect == Outcome(policies, request)
    ensures matched == Matched(policies, request)
    ensures reasons <= matched && (effect != Deny ==> reasons == matched)
    ensures effect == Deny ==> reasons != [] && reasons[|reasons| - 1].effect == Deny
    ensures forall i :: 0 <= i < |reasons| - 1 ==> reasons[i].effect != Deny
  {
    matched := FindMatched(policies, request);
    effect, reasons := Decide(matched);
  }
}
