/**
 The API gateway in front of the limiter: which route a path takes, and which bucket a call is counted in.
 */
module Gateway {
  import opened Wrappers
  import opened RateLimit

  datatype AuthType = Jwt | ApiKey | Sso

  datatype Route = Route(
    id: string,
    prefix: string,
    auth: AuthType,
    requiredRank: Option<int>,
    limit: int,
    enabled: bool)

  // ---------------------------------------------------------------- matching a path

  /** `prefix.rstrip("/")` */
  function Trimmed(prefix: string): string {
    if prefix != [] && prefix[|prefix| - 1] == '/' then Trimmed(prefix[..|prefix| - 1]) else prefix
  }

  predicate Matches(prefix: string, path: string) {
    path == prefix || Trimmed(prefix) + "/" <= path || prefix <= path
  }

  lemma {:induction false} TrimmedIsShorter(prefix: string)
    ensures Trimmed(prefix) <= prefix
    ensures Trimmed(prefix) != prefix ==> Trimmed(prefix) + "/" <= prefix
  {
    if prefix != [] && prefix[|prefix| - 1] == '/' {
      var front := prefix[..|prefix| - 1];
      TrimmedIsShorter(front);
      assert prefix == front + "/";
    }
  }

  lemma PrefixOfPrefix(a: string, b: string, c: string)
    requires a <= b && b <= c
    ensures a <= c
  {
  }

  /**
   The three tests come to one plain prefix test, so a prefix without a slash at its end also takes
   longer names of the same beginning: the boundary between path segments is never looked at.
   */
  lemma MatchIsOnePrefixTest(prefix: string, path: string)
    ensures Matches(prefix, path) <==>
            (if Trimmed(prefix) == prefix then prefix else Trimmed(prefix) + "/") <= path
  {
    TrimmedIsShorter(prefix);
    var slashed := Trimmed(prefix) + "/";
    if Trimmed(prefix) == prefix {
      if slashed <= path { PrefixOfPrefix(prefix, slashed, path); }
    } else if prefix <= path {
      PrefixOfPrefix(slashed, prefix, path);
    }
  }

  /** What the first two tests ask for: the path is the prefix, or goes on with a new segment. */
  predicate OnBoundary(prefix: string, path: string) {
    path == prefix || Trimmed(prefix) + "/" <= path
  }

  /**
   A route takes a path beyond its segments exactly when its prefix has no slash at its end and the path goes on
   without one.
   */
  lemma BoundaryIsCrossedExactlyWhen(prefix: string, path: string)
    ensures Matches(prefix, path) && !OnBoundary(prefix, path) <==>
            Trimmed(prefix) == prefix && prefix < path && path[|prefix|] != '/'
  {
    MatchIsOnePrefixTest(prefix, path);
    var slashed := Trimmed(prefix) + "/";
    if Trimmed(prefix) == prefix && prefix < path {
      assert path[..|prefix|] == prefix;
      assert slashed <= path <==> path[|prefix|] == '/' by {
        if path[|prefix|] == '/' { assert path[..|prefix| + 1] == slashed; }
      }
    }
  }

  /** Such a path. */
  lemma LongerNameIsTaken()
    ensures Matches("/v1/agents", "/v1/agentsx") && !OnBoundary("/v1/agents", "/v1/agentsx")
  {
    var prefix, path := "/v1/agents", "/v1/agentsx";
    assert path[..|prefix|] == prefix && path[|prefix|] == 'x';
    BoundaryIsCrossedExactlyWhen(prefix, path);
  }

  /** Longest prefix first; among equally long ones the order of registration. */
  function InsertByLength(sorted: seq<Route>, route: Route): seq<Route> {
    if sorted != [] && |sorted[|sorted| - 1].prefix| < |route.prefix| then
      InsertByLength(sorted[..|sorted| - 1], route) + [sorted[|sorted| - 1]]
    else sorted + [route]
  }

  function ByLength(routes: seq<Route>): seq<Route> {
    if routes == [] then [] else InsertByLength(ByLength(routes[..|routes| - 1]), routes[|routes| - 1])
  }

  function FirstMatch(routes: seq<Route>, path: string): Option<Route> {
    if routes == [] then None
    else match FirstMatch(routes[..|routes| - 1], path)
      case Some(route) => Some(route)
      case None => if Matches(routes[|routes| - 1].prefix, path) then Some(routes[|routes| - 1]) else None
  }

  ghost predicate Descending(routes: seq<Route>) {
    forall i, j :: 0 <= i < j < |routes| ==> |routes[i].prefix| >= |routes[j].prefix|
  }

  /** `route` is chosen from `routes` at position `k`. */
  ghost predicate IsLongestMatch(routes: seq<Route>, path: string, k: int) {
    && 0 <= k < |routes|
    && Matches(routes[k].prefix, path)
    && (forall i :: 0 <= i < |routes| && Matches(routes[i].prefix, path) ==> |routes[i].prefix| <= |routes[k].prefix|)
    && (forall i :: 0 <= i < k && Matches(routes[i].prefix, path) ==> |routes[i].prefix| < |routes[k].prefix|)
  }

  lemma {:induction false} FirstMatchSnoc(routes: seq<Route>, last: Route, path: string)
    ensures FirstMatch(routes + [last], path) ==
            match FirstMatch(routes, path)
            case Some(route) => Some(route)
            case None => if Matches(last.prefix, path) then Some(last) else None
  {
    hide Matches;
    assert (routes + [last])[..|routes|] == routes;
  }

  lemma {:induction false} FirstMatchIsIn(routes: seq<Route>, path: string)
    ensures FirstMatch(routes, path).Some? ==> FirstMatch(routes, path).value in routes
  {
    hide Matches;
    if routes != [] { FirstMatchIsIn(routes[..|routes| - 1], path); }
  }

  lemma {:induction false} InsertKeepsDescending(sorted: seq<Route>, route: Route)
    requires Descending(sorted)
    ensures Descending(InsertByLength(sorted, route))
    decreases |sorted|
  {
    if sorted != [] && |sorted[|sorted| - 1].prefix| < |route.prefix| {
      var front, last := sorted[..|sorted| - 1], sorted[|sorted| - 1];
      InsertKeepsDescending(front, route);
      InsertKeepsAtLeast(front, route, |last.prefix|);
    }
  }

  ghost predicate AtLeast(routes: seq<Route>, length: nat) {
    forall i :: 0 <= i < |routes| ==> |routes[i].prefix| >= length
  }

  lemma {:induction false} InsertKeepsAtLeast(sorted: seq<Route>, route: Route, length: nat)
    requires AtLeast(sorted, length) && |route.prefix| >= length
    ensures AtLeast(InsertByLength(sorted, route), length)
    decreases |sorted|
  {
    if sorted != [] && |sorted[|sorted| - 1].prefix| < |route.prefix| {
      InsertKeepsAtLeast(sorted[..|sorted| - 1], route, length);
    }
  }

  /** What inserting a route changes about the first match. */
  lemma {:induction false} InsertedMatch(sorted: seq<Route>, route: Route, path: string)
    requires Descending(sorted)
    ensures FirstMatch(InsertByLength(sorted, route), path) ==
            if Matches(route.prefix, path)
               && (FirstMatch(sorted, path).None? || |FirstMatch(sorted, path).value.prefix| < |route.prefix|)
            then Some(route) else FirstMatch(sorted, path)
    decreases |sorted|
  {
    hide Matches;
    FirstMatchIsIn(sorted, path);
    if sorted != [] && |sorted[|sorted| - 1].prefix| < |route.prefix| {
      var front, last := sorted[..|sorted| - 1], sorted[|sorted| - 1];
      InsertedMatch(front, route, path);
      FirstMatchSnoc(InsertByLength(front, route), last, path);
    } else {
      FirstMatchSnoc(sorted, route, path);
      if FirstMatch(sorted, path).Some? {
        assert |FirstMatch(sorted, path).value.prefix| >= |sorted[|sorted| - 1].prefix|;
      }
    }
  }

  lemma {:induction false} ByLengthIsDescending(routes: seq<Route>)
    ensures Descending(ByLength(routes))
  {
    if routes != [] {
      ByLengthIsDescending(routes[..|routes| - 1]);
      InsertKeepsDescending(ByLength(routes[..|routes| - 1]), routes[|routes| - 1]);
    }
  }

  lemma LongestMatchSnoc(front: seq<Route>, last: Route, path: string, k: int)
    requires IsLongestMatch(front, path, k)
    ensures IsLongestMatch(front + [last], path,
                           if Matches(last.prefix, path) && |front[k].prefix| < |last.prefix| then |front| else k)
  {
    hide Matches;
  }

  /** The route found is the longest match, the first registered of its length; none only when none matches. */
  lemma {:induction false} MatchIsLongest(routes: seq<Route>, path: string) returns (k: int)
    ensures match FirstMatch(ByLength(routes), path)
            case Some(route) => IsLongestMatch(routes, path, k) && route == routes[k]
            case None => forall i :: 0 <= i < |routes| ==> !Matches(routes[i].prefix, path)
    decreases |routes|
  {
    hide Matches;
    hide InsertByLength;
    hide FirstMatch;
    k := 0;
    if routes == [] {
      NoRoutes(path);
    } else {
      var front, last := routes[..|routes| - 1], routes[|routes| - 1];
      k := MatchIsLongest(front, path);
      ByLengthIsDescending(front);
      InsertedMatch(ByLength(front), last, path);
      assert routes == front + [last];
      match FirstMatch(ByLength(front), path)
      case Some(route) =>
        LongestMatchSnoc(front, last, path, k);
        if Matches(last.prefix, path) && |route.prefix| < |last.prefix| { k := |front|; }
      case None =>
        if Matches(last.prefix, path) { k := |front|; }
    }
  }

  lemma NoRoutes(path: string)
    ensures FirstMatch([], path) == None
  {
  }

  method Sort(routes: seq<Route>) returns (sorted: seq<Route>)
    ensures sorted == ByLength(routes)
  {
    sorted := [];
    for i := 0 to |routes|
      invariant sorted == ByLength(routes[..i])
    {
      assert routes[..i + 1][..i] == routes[..i];
      sorted := InsertByLength(sorted, routes[i]);
    }
    assert routes[..|routes|] == routes;
  }

  method Match(routes: seq<Route>, path: string) returns (found: Option<Route>)
    ensures found == FirstMatch(ByLength(routes), path)
  {
    hide FirstMatch;
    hide ByLength;
    NoRoutes(path);
    hide Matches;
    var candidates := Sort(routes);
    for i := 0 to |candidates|
      invariant FirstMatch(candidates[..i], path) == None
    {
      FirstMatchSnoc(candidates[..i], candidates[i], path);
      assert candidates[..i + 1] == candidates[..i] + [candidates[i]];
      if Matches(candidates[i].prefix, path) {
        LaterRoutesDoNotMatter(candidates, i + 1, path);
        return Some(candidates[i]);
      }
    }
    assert candidates[..|candidates|] == candidates;
    found := None;
  }

  lemma {:induction false} LaterRoutesDoNotMatter(routes: seq<Route>, n: nat, path: string)
    requires n <= |routes| && FirstMatch(routes[..n], path).Some?
    ensures FirstMatch(routes, path) == FirstMatch(routes[..n], path)
    decreases |routes|
  {
    hide Matches;
    if n < |routes| {
      var front := routes[..|routes| - 1];
      assert front[..n] == routes[..n];
      LaterRoutesDoNotMatter(front, n, path);
    } else {
      assert routes[..n] == routes;
    }
  }

  // ---------------------------------------------------------------- the bucket of a call

  /** `f"{route.id}:{client_id}:{org_id}"` */
  function BucketKey(route: string, client: string, org: string): string {
    route + ":" + client + ":" + org
  }

  /** The text up to the first colon and the text after it. */
  function SplitFirst(text: string): (string, string) {
    if text == [] || text[0] == ':' then ([], if text == [] then [] else text[1..]) else
      var (before, after) := SplitFirst(text[1..]);
      ([text[0]] + before, after)
  }

  /** The text up to the last colon and the text after it. */
  function SplitLast(text: string): (string, string) {
    var last := |text| - 1;
    if text == [] || text[last] == ':' then (if text == [] then [] else text[..last], []) else
      var (before, after) := SplitLast(text[..last]);
      (before, after + [text[last]])
  }

  lemma {:induction false} SplitAtFirstColon(a: string, rest: string)
    requires ':' !in a
    ensures SplitFirst(a + ":" + rest) == (a, rest)
  {
    var text := a + ":" + rest;
    if a == [] {
      assert text == ":" + rest;
    } else {
      assert text[1..] == a[1..] + ":" + rest;
      SplitAtFirstColon(a[1..], rest);
      assert a == [a[0]] + a[1..];
    }
  }

  lemma {:induction false} SplitAtLastColon(a: string, rest: string)
    requires ':' !in rest
    ensures SplitLast(a + ":" + rest) == (a, rest)
    decreases |rest|
  {
    var text := a + ":" + rest;
    if rest == [] {
      assert text == a + ":";
    } else {
      var front := rest[..|rest| - 1];
      assert text[..|text| - 1] == a + ":" + front;
      SplitAtLastColon(a, front);
      assert rest == front + [rest[|rest| - 1]];
    }
  }

  /**
   A bucket name can be read back: with no colon in the route id, route, client and organization are all recovered,
   whatever the client calls itself. Organizations are UUIDs or "None" and hold no colon.
   */
  lemma BucketKeyCanBeRead(route: string, client: string, org: string)
    requires ':' !in route && ':' !in org
    ensures var (first, rest) := SplitFirst(BucketKey(route, client, org));
            first == route && SplitLast(rest) == (client, org)
  {
    assert BucketKey(route, client, org) == route + ":" + (client + ":" + org);
    SplitAtFirstColon(route, client + ":" + org);
    SplitAtLastColon(client, org);
  }

  /** One route's id, a colon and anything: what makes two ids confusable. */
  predicate Extends(longer: string, route: string) {
    route + ":" <= longer
  }

  /** Where one id extends another, the client that names the rest of it lands in the other route's bucket. */
  lemma ColonInARouteSharesABucket(route: string, rest: string, client: string, org: string)
    ensures BucketKey(route, rest + ":" + client, org) == BucketKey(route + ":" + rest, client, org)
    ensures Extends(route + ":" + rest, route)
  {
    assert route + ":" + (rest + ":" + client) == route + ":" + rest + ":" + client;
    assert route + ":" + rest == (route + ":") + rest;
  }

  /** Equal bucket names have equal organizations, and what is left of them is equal too. */
  lemma SameKeySameOrg(route: string, client: string, org: string, route': string, client': string, org': string)
    requires ':' !in org && ':' !in org'
    requires BucketKey(route, client, org) == BucketKey(route', client', org')
    ensures org == org' && route + ":" + client == route' + ":" + client'
  {
    SplitAtLastColon(route + ":" + client, org);
    SplitAtLastColon(route' + ":" + client', org');
  }

  lemma OneExtendsTheOther(route: string, client: string, route': string, client': string)
    requires route != route' && route + ":" + client == route' + ":" + client'
    ensures Extends(route', route) || Extends(route, route')
  {
    var text := route + ":" + client;
    assert text[..|route|] == route && text[..|route'|] == route';
    assert |route| != |route'|;
    assert text[|route|] == ':' && text[|route'|] == ':';
    if |route| < |route'| {
      assert route' == text[..|route'|] && route + ":" == text[..|route| + 1];
    } else {
      assert route == text[..|route|] && route' + ":" == text[..|route'| + 1];
    }
  }

  /** Some two clients do share one when an id extends another. */
  lemma ExtendingIdsShare(route: string, route': string, org: string) returns (client: string, client': string)
    requires Extends(route', route)
    ensures BucketKey(route, client, org) == BucketKey(route', client', org)
  {
    var rest := route'[|route| + 1..];
    assert route' == route + ":" + rest;
    client, client' := rest + ":", "";
    ColonInARouteSharesABucket(route, rest, client', org);
    assert rest + ":" + client' == client;
  }

  /**
   Two different routes can share a bucket exactly when the id of one is the id of the other, a colon and more; a look
   at the registered ids tells.
   */
  lemma RoutesShareExactlyWhen(route: string, route': string, org: string)
    requires route != route' && ':' !in org
    ensures (exists client, client' :: BucketKey(route, client, org) == BucketKey(route', client', org))
            <==> Extends(route', route) || Extends(route, route')
  {
    if client, client' :| BucketKey(route, client, org) == BucketKey(route', client', org) {
      SameKeySameOrg(route, client, org, route', client', org);
      OneExtendsTheOther(route, client, route', client');
    }
    if Extends(route', route) {
      var client, client' := ExtendingIdsShare(route, route', org);
    } else if Extends(route, route') {
      var client', client := ExtendingIdsShare(route', route, org);
      assert BucketKey(route, client, org) == BucketKey(route', client', org);
    }
  }

  /**
   So where no id extends another, calls share a bucket exactly when route, client and organization are the same,
   whatever the clients call themselves. Organizations are UUIDs or "None" and hold no colon.
   */
  lemma BucketsAreApart(route: string, client: string, org: string, route': string, client': string, org': string)
    requires !Extends(route', route) && !Extends(route, route') && ':' !in org && ':' !in org'
    ensures BucketKey(route, client, org) == BucketKey(route', client', org')
            <==> route == route' && client == client' && org == org'
  {
    if BucketKey(route, client, org) == BucketKey(route', client', org') {
      SameKeySameOrg(route, client, org, route', client', org');
      if route != route' {
        RoutesShareExactlyWhen(route, route', org);
      }
      assert (route + ":" + client)[|route| + 1..] == client;
      assert (route' + ":" + client')[|route'| + 1..] == client';
    }
  }

  // ---------------------------------------------------------------- authorizing a call

  /** What looking the presented API key up came to. */
  datatype Credential = Missing | Invalid | Key(org: string, limit: int)

  datatype Verdict =
    | NoRoute | Disabled | KeyRequired | InvalidKey | OrgMismatch | RoleTooLow | Limited
    | Allowed(route: string, limit: int)

  const API_CLIENT_RANK := 10

  function Min(a: int, b: int): int {
    if a <= b then a else b
  }

  /** Everything before the limiter: a refusal, or the organization and the limit the call is counted with. */
  function Admit(route: Option<Route>, org: Option<string>, credential: Credential, rank: Option<int>)
    : Result<(string, int), Verdict>
  {
    if route.None? then Err(NoRoute)
    else if !route.value.enabled then Err(Disabled)
    else if route.value.auth.ApiKey? then
      match credential
      case Missing => Err(KeyRequired)
      case Invalid => Err(InvalidKey)
      case Key(owner, limit) =>
        if org.Some? && org.value != owner then Err(OrgMismatch)
        else if RankTooLow(route.value, Some(API_CLIENT_RANK)) then Err(RoleTooLow)
        else Ok((owner, Min(route.value.limit, limit)))
    else if RankTooLow(route.value, rank) then Err(RoleTooLow)
    else Ok((match org case Some(id) => id case None => "None", route.value.limit))
  }

  predicate RankTooLow(route: Route, rank: Option<int>) {
    route.requiredRank.Some? && rank.Some? && rank.value < route.requiredRank.value
  }

  /**
   A call is counted: its route is there and enabled, a route for API keys was given a good key of the organization
   named, and no known rank falls short.
   */
  predicate Counted(route: Option<Route>, org: Option<string>, credential: Credential, rank: Option<int>) {
    && route.Some? && route.value.enabled
    && (route.value.auth.ApiKey? ==> credential.Key? && (org.None? || org.value == credential.org))
    && (route.value.requiredRank.Some? ==>
          if route.value.auth.ApiKey? then API_CLIENT_RANK >= route.value.requiredRank.value
          else rank.None? || rank.value >= route.value.requiredRank.value)
  }

  lemma AdmittedIsCounted(route: Option<Route>, org: Option<string>, credential: Credential, rank: Option<int>)
    ensures Admit(route, org, credential, rank).Ok? <==> Counted(route, org, credential, rank)
    ensures var r := Admit(route, org, credential, rank);
            r.Ok? ==> r.value.1 <= route.value.limit && (route.value.auth.ApiKey? ==> r.value.1 <= credential.limit)
  {
  }

  /**
   The first test a call fails decides. One that passes them all is counted for the owner of its key, against the
   smaller of the route's and the key's limits, or on a route without keys for the organization given, if any, against
   the route's.
   */
  lemma FirstFailedTestDecides(route: Option<Route>, org: Option<string>, credential: Credential, rank: Option<int>)
    ensures var r := Admit(route, org, credential, rank);
            && (r == Err(NoRoute) <==> route.None?)
            && (r == Err(Disabled) <==> route.Some? && !route.value.enabled)
            && (route.Some? && route.value.enabled && route.value.auth == ApiKey ==>
                  match credential
                  case Missing => r == Err(KeyRequired)
                  case Invalid => r == Err(InvalidKey)
                  case Key(owner, limit) =>
                    && (r == Err(OrgMismatch) <==> org.Some? && org.value != owner)
                    && (r == Err(RoleTooLow) <==>
                          (org == None || org == Some(owner)) && route.value.requiredRank.Some?
                          && 10 < route.value.requiredRank.value)
                    && (r != Err(OrgMismatch) && r != Err(RoleTooLow) ==>
                          r == Ok((owner, if route.value.limit < limit then route.value.limit else limit))))
            && (route.Some? && route.value.enabled && route.value.auth != ApiKey ==>
                  r == if route.value.requiredRank.Some? && rank.Some? && rank.value < route.value.requiredRank.value
                       then Err(RoleTooLow)
                       else Ok((if org.Some? then org.value else "None", route.value.limit)))
  {
  }

  class ApiGateway {
    var routes: seq<Route>
    const limiter: Limiter

    constructor (registered: seq<Route>)
      ensures routes == registered && fresh(limiter) && limiter.Valid() && limiter.log == []
    {
      routes := registered;
      limiter := new Limiter();
    }

    /** Only a call that passed every other test is counted, in its own bucket and against the smaller limit. */
    method Authorize(path: string, org: Option<string>, credential: Credential, rank: Option<int>, client: string,
        now: real)
      returns (verdict: Verdict)
      requires limiter.Valid()
      requires limiter.log == [] || limiter.log[|limiter.log| - 1].at <= now
      modifies limiter
      ensures limiter.Valid()
      ensures match Admit(FirstMatch(ByLength(routes), path), org, credential, rank)
              case Err(refusal) => verdict == refusal && limiter.log == old(limiter.log)
                  && limiter.buckets == old(limiter.buckets)
              case Ok((owner, limit)) =>
                var route := FirstMatch(ByLength(routes), path).value;
                var key := BucketKey(route.id, client, owner);
                && limiter.log == old(limiter.log) + [Call(key, now, limit, verdict.Allowed?)]
                && limiter.buckets == old(limiter.buckets)[key := Recent(limiter.log, key, now)]
                && verdict == if |Recent(old(limiter.log), key, now)| < limit then Allowed(route.id, limit) else Limited
      ensures |limiter.log| == |old(limiter.log)| +
        (if Counted(FirstMatch(ByLength(routes), path), org, credential, rank) then 1 else 0)
    {
      hide Counted;
      hide FirstMatch;
      hide ByLength;
      hide Recent;
      hide Matches;
      var route := Match(routes, path);
      AdmittedIsCounted(route, org, credential, rank);
      if route == None { return NoRoute; }
      if !route.value.enabled { return Disabled; }
      var limit, owner, actual := route.value.limit, org, rank;
      if route.value.auth.ApiKey? {
        match credential {
          case Missing => return KeyRequired;
          case Invalid => return InvalidKey;
          case Key(keyOrg, keyLimit) =>
            if org.Some? && org.value != keyOrg { return OrgMismatch; }
            owner, limit, actual := Some(keyOrg), Min(limit, keyLimit), Some(API_CLIENT_RANK);
        }
      }
      if route.value.requiredRank.Some? && actual.Some? && actual.value < route.value.requiredRank.value {
        return RoleTooLow;
      }
      var admitted := limiter.RateLimit(BucketKey(route.value.id, client, if owner.Some? then owner.value else "None"),
          limit, now);
      verdict := if admitted then Allowed(route.value.id, limit) else Limited;
    }
  }
}
