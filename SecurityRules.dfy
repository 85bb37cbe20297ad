/** Spring Security's authorizeHttpRequests: an ordered list of rules, each a
    request matcher and what it requires of the caller.  The first rule whose
    matcher accepts the request decides; what it requires is then checked
    against whether the request carries an authenticated principal. */
module SecurityRules {
  import opened Wrappers
  import opened RequestPaths
  import opened AntMatchers

  /** The values of Spring's HttpMethod. */
  datatype HttpMethod = GET | HEAD | POST | PUT | PATCH | DELETE | OPTIONS | TRACE

  /** authenticated() or permitAll() */
  datatype Requirement = Authenticated | PermitAll

  datatype Decision = Allow | Deny

  /** requestMatchers(antMatcher(method, pattern)) followed by its requirement;
      antMatcher(pattern), without a method, leaves httpMethod None. */
  datatype Rule = Rule(httpMethod: Option<HttpMethod>, matcher: Matcher, requirement: Requirement)

  /** AntPathRequestMatcher.matches: the method agrees, when the rule names
      one, and the path matches. */
  predicate RuleMatches(r: Rule, m: HttpMethod, p: Path)
    ensures r.httpMethod.Some? && r.httpMethod.value != m ==> !RuleMatches(r, m, p)
    ensures r == Rule(None, AnyRequest, r.requirement) ==> RuleMatches(r, m, p)
  {
    (r.httpMethod.None? || r.httpMethod.value == m) && Matches(r.matcher, p)
  }

  /** The same test applied to the raw path text, as Spring applies it. */
  predicate RuleMatchesText(r: Rule, m: HttpMethod, s: string)
    ensures r.httpMethod.Some? && r.httpMethod.value != m ==> !RuleMatchesText(r, m, s)
    ensures r == Rule(None, AnyRequest, r.requirement) ==> RuleMatchesText(r, m, s)
  {
    (r.httpMethod.None? || r.httpMethod.value == m) && MatchesText(r.matcher, s)
  }

  /** Rule k matches and no rule before it does. */
  predicate IsFirstMatch(rules: seq<Rule>, k: nat, m: HttpMethod, p: Path) {
    k < |rules| && RuleMatches(rules[k], m, p) &&
    forall j :: 0 <= j < k ==> !RuleMatches(rules[j], m, p)
  }

  /** The first rule at or after position i that matches. */
  function FirstMatchFrom(rules: seq<Rule>, i: nat, m: HttpMethod, p: Path): (r: Option<nat>)
    requires i <= |rules|
    ensures r.Some? ==> i <= r.value < |rules|
    decreases |rules| - i
  {
    if i == |rules| then None
    else if RuleMatches(rules[i], m, p) then Some(i)
    else FirstMatchFrom(rules, i + 1, m, p)
  }

  /** The search from position i finds the first matching rule at or after i,
      and finds none exactly when no rule from i on matches. */
  lemma {:induction false} FirstMatchFromFinds(rules: seq<Rule>, i: nat, m: HttpMethod, p: Path)
    requires i <= |rules|
    ensures var r := FirstMatchFrom(rules, i, m, p);
      && (r.Some? ==> RuleMatches(rules[r.value], m, p))
      && (r.Some? ==> forall j :: i <= j < r.value ==> !RuleMatches(rules[j], m, p))
      && (r.None? ==> forall j :: i <= j < |rules| ==> !RuleMatches(rules[j], m, p))
    decreases |rules| - i
  {
    if i < |rules| && !RuleMatches(rules[i], m, p) {
      FirstMatchFromFinds(rules, i + 1, m, p);
    }
  }

  /** The position of the rule that decides the request, if any rule matches. */
  function FirstMatch(rules: seq<Rule>, m: HttpMethod, p: Path): (r: Option<nat>)
    ensures r.Some? ==> r.value < |rules| && RuleMatches(rules[r.value], m, p)
    ensures r.Some? ==> forall j :: 0 <= j < r.value ==> !RuleMatches(rules[j], m, p)
    ensures r.None? ==> forall j :: 0 <= j < |rules| ==> !RuleMatches(rules[j], m, p)
  {
    FirstMatchFromFinds(rules, 0, m, p);
    FirstMatchFrom(rules, 0, m, p)
  }

  /** What a requirement answers for a caller that is, or is not,
      authenticated (AuthenticatedAuthorizationManager for authenticated(),
      a constant grant for permitAll()). */
  function Grant(req: Requirement, authenticated: bool): (d: Decision)
    ensures d == Deny <==> req.Authenticated? && !authenticated
  {
    if req == PermitAll || authenticated then Allow else Deny
  }

  /** The authorization decision.  When no rule matches, Spring Security 6's
      RequestMatcherDelegatingAuthorizationManager denies. */
  function Decide(rules: seq<Rule>, m: HttpMethod, p: Path, authenticated: bool): (d: Decision)
    ensures d == Deny && authenticated ==> forall j :: 0 <= j < |rules| ==> !RuleMatches(rules[j], m, p)
    ensures (exists j :: 0 <= j < |rules| && RuleMatches(rules[j], m, p) && rules[j].requirement == PermitAll
                         && forall i :: 0 <= i < j ==> !RuleMatches(rules[i], m, p)) ==> d == Allow
  {
    match FirstMatch(rules, m, p)
    case None => Deny
    case Some(k) => Grant(rules[k].requirement, authenticated)
  }

  /** The first rule at or after position i that matches the raw path text. */
  function FirstMatchTextFrom(rules: seq<Rule>, i: nat, m: HttpMethod, s: string): (r: Option<nat>)
    requires i <= |rules|
    ensures r.Some? ==> i <= r.value < |rules| && RuleMatchesText(rules[r.value], m, s)
    ensures r.Some? ==> forall j :: i <= j < r.value ==> !RuleMatchesText(rules[j], m, s)
    ensures r.None? ==> forall j :: i <= j < |rules| ==> !RuleMatchesText(rules[j], m, s)
    decreases |rules| - i
  {
    if i == |rules| then None
    else if RuleMatchesText(rules[i], m, s) then Some(i)
    else FirstMatchTextFrom(rules, i + 1, m, s)
  }

  /** The authorization decision on the raw path text, as Spring takes it. */
  function DecideText(rules: seq<Rule>, m: HttpMethod, s: string, authenticated: bool): (d: Decision)
    ensures d == Deny && authenticated ==> FirstMatchTextFrom(rules, 0, m, s).None?
  {
    match FirstMatchTextFrom(rules, 0, m, s)
    case None => Deny
    case Some(k) => Grant(rules[k].requirement, authenticated)
  }

  /** When every rule answers alike on the text s and on the path p, the
      searches on the two agree from position i on. */
  lemma {:induction false} FirstMatchTextFromAgrees(rules: seq<Rule>, i: nat, m: HttpMethod, s: string, p: Path)
    requires i <= |rules|
    requires forall k :: i <= k < |rules| ==> (RuleMatchesText(rules[k], m, s) <==> RuleMatches(rules[k], m, p))
    ensures FirstMatchTextFrom(rules, i, m, s) == FirstMatchFrom(rules, i, m, p)
    decreases |rules| - i
  {
    if i < |rules| && !RuleMatches(rules[i], m, p) {
      FirstMatchTextFromAgrees(rules, i + 1, m, s, p);
    }
  }

  /** When every rule answers alike on the text s and on the path p, the
      decision on the text is the decision on the path. */
  lemma DecideTextAgrees(rules: seq<Rule>, m: HttpMethod, s: string, p: Path, authenticated: bool)
    requires forall k :: 0 <= k < |rules| ==> (RuleMatchesText(rules[k], m, s) <==> RuleMatches(rules[k], m, p))
    ensures DecideText(rules, m, s, authenticated) == Decide(rules, m, p, authenticated)
  {
    FirstMatchTextFromAgrees(rules, 0, m, s, p);
  }

  /** A rule table written as consecutive groups of rules, from group g on. */
  function Flatten(groups: seq<seq<Rule>>, g: nat): seq<Rule>
    requires g <= |groups|
    decreases |groups| - g
  {
    if g == |groups| then [] else groups[g] + Flatten(groups, g + 1)
  }

  /** A position found in a later part of a table, moved past the n rules
      before that part. */
  function Shift(r: Option<nat>, n: nat): Option<nat> {
    match r
    case None => None
    case Some(k) => Some(n + k)
  }

  /** The number of rules in groups s up to, not including, g. */
  function Span(groups: seq<seq<Rule>>, s: nat, g: nat): nat
    requires s <= g <= |groups|
    decreases g - s
  {
    if s == g then 0 else |groups[s]| + Span(groups, s + 1, g)
  }

  /** The first match searched group by group from group g on: the first match
      in group g, or else the first match in the groups after it, counted
      from the end of group g. */
  function FirstMatchInGroups(groups: seq<seq<Rule>>, g: nat, m: HttpMethod, p: Path): Option<nat>
    requires g <= |groups|
    decreases |groups| - g
  {
    if g == |groups| then None
    else
      match FirstMatchFrom(groups[g], 0, m, p)
      case Some(k) => Some(k)
      case None => Shift(FirstMatchInGroups(groups, g + 1, m, p), |groups[g]|)
  }

  // ---------------------------------------------------------------------------
  // Lemmas

  /** FirstMatch finds the first rule that matches, and finds none exactly
      when no rule matches. */
  lemma FirstMatchSpec(rules: seq<Rule>, m: HttpMethod, p: Path)
    ensures FirstMatch(rules, m, p).Some? ==> IsFirstMatch(rules, FirstMatch(rules, m, p).value, m, p)
    ensures FirstMatch(rules, m, p).None? <==> forall j :: 0 <= j < |rules| ==> !RuleMatches(rules[j], m, p)
  {
    FirstMatchFromFinds(rules, 0, m, p);
  }

  /** The first matching rule alone decides: whatever comes after it, and
      whatever it would say, is never consulted. */
  lemma DecideAt(rules: seq<Rule>, k: nat, m: HttpMethod, p: Path, authenticated: bool)
    requires IsFirstMatch(rules, k, m, p)
    ensures FirstMatch(rules, m, p) == Some(k)
    ensures Decide(rules, m, p, authenticated) == Grant(rules[k].requirement, authenticated)
  {
    FirstMatchSpec(rules, m, p);
    var r := FirstMatch(rules, m, p);
    assert r.Some?;
  }

  /** A request is denied exactly when no rule matches, or the first matching
      rule requires authentication and the caller has none. */
  lemma DenyIff(rules: seq<Rule>, m: HttpMethod, p: Path, authenticated: bool)
    ensures Decide(rules, m, p, authenticated) == Deny <==>
      (forall j :: 0 <= j < |rules| ==> !RuleMatches(rules[j], m, p)) ||
      (!authenticated && exists k: nat :: IsFirstMatch(rules, k, m, p) && rules[k].requirement == Authenticated)
  {
    FirstMatchSpec(rules, m, p);
    match FirstMatch(rules, m, p)
    case None =>
    case Some(k) =>
      if !authenticated && exists k': nat :: IsFirstMatch(rules, k', m, p) && rules[k'].requirement == Authenticated {
        var k': nat :| IsFirstMatch(rules, k', m, p) && rules[k'].requirement == Authenticated;
        DecideAt(rules, k', m, p, authenticated);
      }
  }

  /** A rule that accepts every request, with no method, guarantees a match;
      then only an unauthenticated caller can be denied. */
  lemma CatchAllNeverDeniesAuthenticated(rules: seq<Rule>, k: nat, m: HttpMethod, p: Path)
    requires k < |rules| && rules[k].httpMethod.None? && rules[k].matcher.AnyRequest?
    ensures FirstMatch(rules, m, p).Some?
    ensures Decide(rules, m, p, true) == Allow
  {
    FirstMatchSpec(rules, m, p);
    assert RuleMatches(rules[k], m, p);
  }

  /** Dropping rule j changes no decision when rule i, earlier in the list,
      matches every request that rule j matches. */
  lemma RemoveCovered(rules: seq<Rule>, i: nat, j: nat, m: HttpMethod, p: Path, authenticated: bool)
    requires i < j < |rules|
    requires RuleMatches(rules[j], m, p) ==> RuleMatches(rules[i], m, p)
    ensures Decide(rules[..j] + rules[j + 1..], m, p, authenticated) == Decide(rules, m, p, authenticated)
  {
    var rest := rules[..j] + rules[j + 1..];
    assert forall x :: 0 <= x < j ==> rest[x] == rules[x];
    assert forall x :: j <= x < |rest| ==> rest[x] == rules[x + 1];
    FirstMatchSpec(rules, m, p);
    FirstMatchSpec(rest, m, p);
    match FirstMatch(rules, m, p)
    case None =>
      assert FirstMatch(rest, m, p).None? by {
        forall x | 0 <= x < |rest| ensures !RuleMatches(rest[x], m, p) {
          if x >= j {
            assert !RuleMatches(rules[x + 1], m, p);
          }
        }
      }
    case Some(k) =>
      if k < j {
        DecideAt(rest, k, m, p, authenticated);
      } else {
        assert k != j;
        assert IsFirstMatch(rest, k - 1, m, p) by {
          forall x | 0 <= x < k - 1 ensures !RuleMatches(rest[x], m, p) {
            if x >= j {
              assert !RuleMatches(rules[x + 1], m, p);
            }
          }
        }
        DecideAt(rest, k - 1, m, p, authenticated);
      }
  }

  /** The first match in a + b is the first match in a or, when a has none,
      the first match in b counted from the end of a. */
  lemma FirstMatchAppend(a: seq<Rule>, b: seq<Rule>, m: HttpMethod, p: Path)
    ensures FirstMatch(a + b, m, p) ==
      match FirstMatch(a, m, p)
      case Some(k) => Some(k)
      case None => Shift(FirstMatch(b, m, p), |a|)
  {
    var ab := a + b;
    assert forall j :: 0 <= j < |a| ==> ab[j] == a[j];
    assert forall j :: 0 <= j < |b| ==> ab[|a| + j] == b[j];
    FirstMatchSpec(a, m, p);
    FirstMatchSpec(b, m, p);
    FirstMatchSpec(ab, m, p);
    match FirstMatch(a, m, p)
    case Some(k) =>
      DecideAt(ab, k, m, p, true);
    case None =>
      match FirstMatch(b, m, p)
      case Some(k) =>
        assert IsFirstMatch(ab, |a| + k, m, p) by {
          forall j | 0 <= j < |a| + k ensures !RuleMatches(ab[j], m, p) {
            if j >= |a| {
              assert ab[j] == b[j - |a|];
            }
          }
        }
        DecideAt(ab, |a| + k, m, p, true);
      case None =>
        forall j | 0 <= j < |ab| ensures !RuleMatches(ab[j], m, p) {
          if j >= |a| {
            assert ab[j] == b[j - |a|];
          }
        }
  }

  /** Searching a table written in groups is searching group by group. */
  lemma {:induction false} FirstMatchFlatten(groups: seq<seq<Rule>>, g: nat, m: HttpMethod, p: Path)
    requires g <= |groups|
    ensures FirstMatch(Flatten(groups, g), m, p) == FirstMatchInGroups(groups, g, m, p)
    decreases |groups| - g
  {
    if g < |groups| {
      FirstMatchAppend(groups[g], Flatten(groups, g + 1), m, p);
      FirstMatchFlatten(groups, g + 1, m, p);
    }
  }

  /** Rule k of group g stands in the whole table after the rules of the
      groups before g. */
  lemma {:induction false} FlattenAt(groups: seq<seq<Rule>>, s: nat, g: nat, k: nat)
    requires s <= g < |groups| && k < |groups[g]|
    ensures Span(groups, s, g) + k < |Flatten(groups, s)|
    ensures Flatten(groups, s)[Span(groups, s, g) + k] == groups[g][k]
    decreases g - s
  {
    if s < g {
      FlattenAt(groups, s + 1, g, k);
    }
  }

  /** When the groups from s up to g all miss and group g finds rule k, the
      search from group s finds rule k of group g. */
  lemma {:induction false} FoundInGroupFrom(groups: seq<seq<Rule>>, s: nat, g: nat, k: nat, m: HttpMethod, p: Path)
    requires s <= g < |groups|
    requires forall h :: s <= h < g ==> FirstMatchFrom(groups[h], 0, m, p) == None
    requires FirstMatchFrom(groups[g], 0, m, p) == Some(k)
    ensures FirstMatchInGroups(groups, s, m, p) == Some(Span(groups, s, g) + k)
    decreases g - s
  {
    if s < g {
      FoundInGroupFrom(groups, s + 1, g, k, m, p);
    }
  }

  /** The decision of a table written in groups, read off the group that
      holds its first matching rule: when no rule of the first g groups
      matches and rule k is the first of group g to match, rule k of group g
      decides. */
  lemma DecidedInGroup(groups: seq<seq<Rule>>, g: nat, k: nat, m: HttpMethod, p: Path, authenticated: bool)
    requires g < |groups|
    requires forall h :: 0 <= h < g ==> FirstMatchFrom(groups[h], 0, m, p) == None
    requires FirstMatchFrom(groups[g], 0, m, p) == Some(k)
    ensures FirstMatch(Flatten(groups, 0), m, p) == Some(Span(groups, 0, g) + k)
    ensures Decide(Flatten(groups, 0), m, p, authenticated) == Grant(groups[g][k].requirement, authenticated)
  {
    FoundInGroupFrom(groups, 0, g, k, m, p);
    FirstMatchFlatten(groups, 0, m, p);
    FlattenAt(groups, 0, g, k);
  }
}
