/** The access rules that WebSecurityConfig.securityFilterChain installs, in
    the order it installs them, and what they decide.  Comments give the
    source line of each rule and its pattern text.  The catch-all at the end
    permits everything that no earlier rule matched. */
module WebSecurityConfig {
  import opened Wrappers
  import opened RequestPaths
  import opened AntMatchers
  import opened SecurityRules

  // The rules, in order, in the groups the configuration lists them in.  Each
  // comment gives the rule's position in the whole table, its source line and
  // its method and pattern.

  /** members (lines 69-73) */
  const MembersRules: seq<Rule> := [
    // 0, line 69: GET /api/auth/members/me
    Rule(Some(GET), Ant([Literal("api"), Literal("auth"), Literal("members"), Literal("me")]), Authenticated),
    // 1, line 70: GET /api/auth/members/*
    Rule(Some(GET), Ant([Literal("api"), Literal("auth"), Literal("members"), Star]), PermitAll),
    // 2, line 71: PUT /api/auth/members/me/**
    Rule(Some(PUT), Subpath(["api", "auth", "members", "me"]), Authenticated),
    // 3, line 72: DELETE /api/auth/members/me/**
    Rule(Some(DELETE), Subpath(["api", "auth", "members", "me"]), Authenticated),
    // 4, line 73: GET /api/auth/**
    Rule(Some(GET), Subpath(["api", "auth"]), PermitAll)
  ]

  /** categories (lines 76-80) */
  const CategoriesRules: seq<Rule> := [
    // 5, line 76: GET /api/categories
    Rule(Some(GET), Ant([Literal("api"), Literal("categories")]), PermitAll),
    // 6, line 77: GET /api/categories/*
    Rule(Some(GET), Ant([Literal("api"), Literal("categories"), Star]), PermitAll),
    // 7, line 78: GET /api/categories/*/categories
    Rule(Some(GET), Ant([Literal("api"), Literal("categories"), Star, Literal("categories")]), PermitAll),
    // 8, line 79: GET /api/categories/all/categories
    Rule(Some(GET), Ant([Literal("api"), Literal("categories"), Literal("all"), Literal("categories")]), PermitAll),
    // 9, line 80: GET /api/categories/*/items
    Rule(Some(GET), Ant([Literal("api"), Literal("categories"), Star, Literal("items")]), PermitAll)
  ]

  /** swagger (lines 83-85) */
  const SwaggerRules: seq<Rule> := [
    // 10, line 83: any method, /
    Rule(None, Ant([]), PermitAll),
    // 11, line 84: any method, /v3/api-docs/**
    Rule(None, Subpath(["v3", "api-docs"]), PermitAll),
    // 12, line 85: any method, /swagger-ui/**
    Rule(None, Subpath(["swagger-ui"]), PermitAll)
  ]

  /** search (lines 88-91) */
  const SearchRules: seq<Rule> := [
    // 13, line 88: GET /api/items
    Rule(Some(GET), Ant([Literal("api"), Literal("items")]), PermitAll),
    // 14, line 89: GET /api/top-items
    Rule(Some(GET), Ant([Literal("api"), Literal("top-items")]), PermitAll),
    // 15, line 90: GET /api/nearby-items
    Rule(Some(GET), Ant([Literal("api"), Literal("nearby-items")]), Authenticated),
    // 16, line 91: GET /api/members/*/items
    Rule(Some(GET), Ant([Literal("api"), Literal("members"), Star, Literal("items")]), PermitAll)
  ]

  /** wishes (lines 94-96) */
  const WishesRules: seq<Rule> := [
    // 17, line 94: POST /api/items/*/wishes
    Rule(Some(POST), Ant([Literal("api"), Literal("items"), Star, Literal("wishes")]), Authenticated),
    // 18, line 95: GET /api/items/*/wishes
    Rule(Some(GET), Ant([Literal("api"), Literal("items"), Star, Literal("wishes")]), Authenticated),
    // 19, line 96: GET /api/mypages/wishlists
    Rule(Some(GET), Ant([Literal("api"), Literal("mypages"), Literal("wishlists")]), Authenticated)
  ]

  /** follows (lines 99-104) */
  const FollowsRules: seq<Rule> := [
    // 20, line 99: POST /api/shops/*/follows
    Rule(Some(POST), Ant([Literal("api"), Literal("shops"), Star, Literal("follows")]), Authenticated),
    // 21, line 100: GET /api/shops/*/follows
    Rule(Some(GET), Ant([Literal("api"), Literal("shops"), Star, Literal("follows")]), Authenticated),
    // 22, line 101: GET /api/members/*/followers
    Rule(Some(GET), Ant([Literal("api"), Literal("members"), Star, Literal("followers")]), PermitAll),
    // 23, line 102: GET /api/members/*/followings
    Rule(Some(GET), Ant([Literal("api"), Literal("members"), Star, Literal("followings")]), PermitAll),
    // 24, line 103: GET /api/mypages/followerlists
    Rule(Some(GET), Ant([Literal("api"), Literal("mypages"), Literal("followerlists")]), Authenticated),
    // 25, line 104: DELETE /api/follows/*
    Rule(Some(DELETE), Ant([Literal("api"), Literal("follows"), Star]), Authenticated)
  ]

  /** reviews (lines 107-112) */
  const ReviewsRules: seq<Rule> := [
    // 26, line 107: POST /api/reviews
    Rule(Some(POST), Ant([Literal("api"), Literal("reviews")]), Authenticated),
    // 27, line 108: GET /api/member/*/reviews
    Rule(Some(GET), Ant([Literal("api"), Literal("member"), Star, Literal("reviews")]), PermitAll),
    // 28, line 109: PUT /api/reviews
    Rule(Some(PUT), Ant([Literal("api"), Literal("reviews")]), Authenticated),
    // 29, line 110: PUT /api/reviews/*
    Rule(Some(PUT), Ant([Literal("api"), Literal("reviews"), Star]), Authenticated),
    // 30, line 111: DELETE /api/reviews
    Rule(Some(DELETE), Ant([Literal("api"), Literal("reviews")]), Authenticated),
    // 31, line 112: DELETE /api/reviews/*
    Rule(Some(DELETE), Ant([Literal("api"), Literal("reviews"), Star]), Authenticated)
  ]

  /** trades (lines 115-117) */
  const TradesRules: seq<Rule> := [
    // 32, line 115: GET /api/mypages/orders
    Rule(Some(GET), Ant([Literal("api"), Literal("mypages"), Literal("orders")]), Authenticated),
    // 33, line 116: GET /api/mypages/sales
    Rule(Some(GET), Ant([Literal("api"), Literal("mypages"), Literal("sales")]), Authenticated),
    // 34, line 117: POST /api/trades
    Rule(Some(POST), Ant([Literal("api"), Literal("trades")]), Authenticated)
  ]

  /** websocket (lines 120-123) */
  const WebsocketRules: seq<Rule> := [
    // 35, line 120: POST /chat/**
    Rule(Some(POST), Subpath(["chat"]), PermitAll),
    // 36, line 121: GET /chat/**
    Rule(Some(GET), Subpath(["chat"]), PermitAll),
    // 37, line 122: any method, /webjars/**
    Rule(None, Subpath(["webjars"]), PermitAll),
    // 38, line 123: any method, /ws-stomp/**
    Rule(None, Subpath(["ws-stomp"]), PermitAll)
  ]

  /** catch-all (line 127) */
  const CatchAllRules: seq<Rule> := [
    // 39, line 127: anyRequest().permitAll()
    Rule(None, AnyRequest, PermitAll)
  ]

  /** The groups in the order they are installed. */
  const RuleGroups: seq<seq<Rule>> := [
    MembersRules, CategoriesRules, SwaggerRules, SearchRules, WishesRules,
    FollowsRules, ReviewsRules, TradesRules, WebsocketRules, CatchAllRules
  ]

  /** The whole table. */
  const AccessRules: seq<Rule> := Flatten(RuleGroups, 0)

  /** Position of the catch-all rule. */
  const CatchAll: nat := 39

  /** The table is its groups one after the other: 40 rules, the last of
      them the catch-all. */
  lemma AccessRulesLayout()
    ensures AccessRules ==
      MembersRules + (CategoriesRules + (SwaggerRules + (SearchRules + (WishesRules + (FollowsRules + (ReviewsRules + (TradesRules + (WebsocketRules + (CatchAllRules)))))))))
    ensures |AccessRules| == 40 && AccessRules[CatchAll] == Rule(None, AnyRequest, PermitAll)
  {
    assert Flatten(RuleGroups, 9) == CatchAllRules + Flatten(RuleGroups, 10);
    assert Flatten(RuleGroups, 8) == WebsocketRules + Flatten(RuleGroups, 9);
    assert Flatten(RuleGroups, 7) == TradesRules + Flatten(RuleGroups, 8);
    assert Flatten(RuleGroups, 6) == ReviewsRules + Flatten(RuleGroups, 7);
    assert Flatten(RuleGroups, 5) == FollowsRules + Flatten(RuleGroups, 6);
    assert Flatten(RuleGroups, 4) == WishesRules + Flatten(RuleGroups, 5);
    assert Flatten(RuleGroups, 3) == SearchRules + Flatten(RuleGroups, 4);
    assert Flatten(RuleGroups, 2) == SwaggerRules + Flatten(RuleGroups, 3);
    assert Flatten(RuleGroups, 1) == CategoriesRules + Flatten(RuleGroups, 2);
    assert Flatten(RuleGroups, 0) == MembersRules + Flatten(RuleGroups, 1);
  }

  // ---------------------------------------------------------------------------
  // Properties of the whole table

  /** Some rule always matches, so Decide never reaches the deny-by-default
      branch, and an authenticated caller is never denied. */
  lemma AuthenticatedAlwaysAllowed(m: HttpMethod, p: Path)
    ensures FirstMatch(AccessRules, m, p).Some?
    ensures Decide(AccessRules, m, p, true) == Allow
  {
    AccessRulesLayout();
    CatchAllNeverDeniesAuthenticated(AccessRules, CatchAll, m, p);
  }

  /** A request that none of the listed rules (all but the final catch-all)
      matches is permitted by the catch-all, authenticated or not. */
  lemma UnlistedRequestsAllowed(m: HttpMethod, p: Path, authenticated: bool)
    requires forall j :: 0 <= j < |AccessRules| - 1 ==> !RuleMatches(AccessRules[j], m, p)
    ensures FirstMatch(AccessRules, m, p) == Some(CatchAll)
    ensures Decide(AccessRules, m, p, authenticated) == Allow
  {
    AccessRulesLayout();
    DecideAt(AccessRules, CatchAll, m, p, authenticated);
  }

  /** Every denial comes from an unauthenticated caller whose request first
      matched one of the listed authenticated() rules. */
  lemma DeniedOnlyByAuthenticatedRule(m: HttpMethod, p: Path, authenticated: bool)
    requires Decide(AccessRules, m, p, authenticated) == Deny
    ensures !authenticated
    ensures exists k: nat :: k < CatchAll && IsFirstMatch(AccessRules, k, m, p) && AccessRules[k].requirement == Authenticated
  {
    AccessRulesLayout();
    AuthenticatedAlwaysAllowed(m, p);
    FirstMatchSpec(AccessRules, m, p);
    DenyIff(AccessRules, m, p, authenticated);
    var k: nat :| IsFirstMatch(AccessRules, k, m, p) && AccessRules[k].requirement == Authenticated;
    assert k != CatchAll;
  }

  /** Spring tests the rules on the normalised path text; each rule answers
      there as it answers on the segments read from it. */
  lemma AccessRulesOnText(k: nat, m: HttpMethod, s: string)
    requires k < |AccessRules| && Canonical(s)
    ensures RuleMatchesText(AccessRules[k], m, s) <==> RuleMatches(AccessRules[k], m, Parse(s))
  {
    MatchesCanonical(AccessRules[k].matcher, s);
  }

  /** On a normalised path text the table decides as it decides on the
      segments read from that text. */
  lemma AccessRulesDecideOnText(m: HttpMethod, s: string, authenticated: bool)
    requires Canonical(s)
    ensures DecideText(AccessRules, m, s, authenticated) == Decide(AccessRules, m, Parse(s), authenticated)
  {
    forall k | 0 <= k < |AccessRules|
      ensures RuleMatchesText(AccessRules[k], m, s) <==> RuleMatches(AccessRules[k], m, Parse(s))
    {
      AccessRulesOnText(k, m, s);
    }
    DecideTextAgrees(AccessRules, m, s, Parse(s), authenticated);
  }

  /** The rule of line 79 is shadowed by the rule of line 78: deleting it
      changes no decision. */
  lemma Line79Shadowed(m: HttpMethod, p: Path, authenticated: bool)
    ensures |AccessRules| == 40 &&
      Decide(AccessRules[..8] + AccessRules[9..], m, p, authenticated) == Decide(AccessRules, m, p, authenticated)
  {
    AccessRulesLayout();
    var general, special := AccessRules[7], AccessRules[8];
    if RuleMatches(special, m, p) {
      assert Generalizes(general.matcher.pattern, special.matcher.pattern);
      AntCovers(general.matcher.pattern, special.matcher.pattern, p);
    }
    RemoveCovered(AccessRules, 7, 8, m, p, authenticated);
  }

  // ---------------------------------------------------------------------------
  // What each group can match

  /** The path is /api/x/... with x one of names. */
  predicate UnderApi(p: Path, names: set<string>) {
    |p.segments| >= 2 && p.segments[0] == "api" && p.segments[1] in names
  }

  /** The members rules only match GET, PUT and DELETE under /api/auth. */
  lemma MembersScope(m: HttpMethod, p: Path)
    ensures FirstMatchFrom(MembersRules, 0, m, p).Some? ==> m in {GET, PUT, DELETE} && UnderApi(p, {"auth"})
  {
    FirstMatchFromFinds(MembersRules, 0, m, p);
    var r := FirstMatchFrom(MembersRules, 0, m, p);
    if r.Some? {
      LiteralSegmentMet(MembersRules[r.value].matcher, p, 0);
      LiteralSegmentMet(MembersRules[r.value].matcher, p, 1);
    }
  }

  /** The category rules only match GET under /api/categories. */
  lemma CategoriesScope(m: HttpMethod, p: Path)
    ensures FirstMatchFrom(CategoriesRules, 0, m, p).Some? ==> m == GET && UnderApi(p, {"categories"})
  {
    FirstMatchFromFinds(CategoriesRules, 0, m, p);
    var r := FirstMatchFrom(CategoriesRules, 0, m, p);
    if r.Some? {
      LiteralSegmentMet(CategoriesRules[r.value].matcher, p, 0);
      LiteralSegmentMet(CategoriesRules[r.value].matcher, p, 1);
    }
  }

  /** The swagger rules only match "/" and the paths under /v3/api-docs and
      /swagger-ui. */
  lemma SwaggerScope(m: HttpMethod, p: Path)
    ensures FirstMatchFrom(SwaggerRules, 0, m, p).Some? ==>
      || p.segments == []
      || p.segments[0] == "swagger-ui"
      || (|p.segments| >= 2 && p.segments[0] == "v3" && p.segments[1] == "api-docs")
  {
    FirstMatchFromFinds(SwaggerRules, 0, m, p);
    var r := FirstMatchFrom(SwaggerRules, 0, m, p);
    if r.Some? && r.value > 0 {
      LiteralSegmentMet(SwaggerRules[r.value].matcher, p, 0);
      if r.value == 1 {
        LiteralSegmentMet(SwaggerRules[1].matcher, p, 1);
      }
    }
  }

  /** The search rules only match GET under /api/items, /api/top-items,
      /api/nearby-items and /api/members. */
  lemma SearchScope(m: HttpMethod, p: Path)
    ensures FirstMatchFrom(SearchRules, 0, m, p).Some? ==>
      m == GET && UnderApi(p, {"items", "top-items", "nearby-items", "members"})
  {
    FirstMatchFromFinds(SearchRules, 0, m, p);
    var r := FirstMatchFrom(SearchRules, 0, m, p);
    if r.Some? {
      LiteralSegmentMet(SearchRules[r.value].matcher, p, 0);
      LiteralSegmentMet(SearchRules[r.value].matcher, p, 1);
    }
  }

  /** The wish rules only match POST and GET under /api/items, and
      /api/mypages/wishlists. */
  lemma WishesScope(m: HttpMethod, p: Path)
    ensures FirstMatchFrom(WishesRules, 0, m, p).Some? ==>
      m in {POST, GET} &&
      (UnderApi(p, {"items"}) || (UnderApi(p, {"mypages"}) && |p.segments| > 2 && p.segments[2] == "wishlists"))
  {
    FirstMatchFromFinds(WishesRules, 0, m, p);
    var r := FirstMatchFrom(WishesRules, 0, m, p);
    if r.Some? {
      LiteralSegmentMet(WishesRules[r.value].matcher, p, 0);
      LiteralSegmentMet(WishesRules[r.value].matcher, p, 1);
      if r.value == 2 {
        LiteralSegmentMet(WishesRules[2].matcher, p, 2);
      }
    }
  }

  /** The follow rules only match POST, GET and DELETE under /api/shops,
      /api/members and /api/follows, and /api/mypages/followerlists. */
  lemma FollowsScope(m: HttpMethod, p: Path)
    ensures FirstMatchFrom(FollowsRules, 0, m, p).Some? ==>
      m in {POST, GET, DELETE} &&
      (UnderApi(p, {"shops", "members", "follows"}) ||
       (UnderApi(p, {"mypages"}) && |p.segments| > 2 && p.segments[2] == "followerlists"))
  {
    FirstMatchFromFinds(FollowsRules, 0, m, p);
    var r := FirstMatchFrom(FollowsRules, 0, m, p);
    if r.Some? {
      LiteralSegmentMet(FollowsRules[r.value].matcher, p, 0);
      LiteralSegmentMet(FollowsRules[r.value].matcher, p, 1);
      if r.value == 4 {
        LiteralSegmentMet(FollowsRules[4].matcher, p, 2);
      }
    }
  }

  /** The review rules only match under /api/reviews and /api/member. */
  lemma ReviewsScope(m: HttpMethod, p: Path)
    ensures FirstMatchFrom(ReviewsRules, 0, m, p).Some? ==>
      m in {POST, GET, PUT, DELETE} && UnderApi(p, {"reviews", "member"})
  {
    FirstMatchFromFinds(ReviewsRules, 0, m, p);
    var r := FirstMatchFrom(ReviewsRules, 0, m, p);
    if r.Some? {
      LiteralSegmentMet(ReviewsRules[r.value].matcher, p, 0);
      LiteralSegmentMet(ReviewsRules[r.value].matcher, p, 1);
    }
  }

  /** The trade rules only match GET and POST under /api/mypages and
      /api/trades. */
  lemma TradesScope(m: HttpMethod, p: Path)
    ensures FirstMatchFrom(TradesRules, 0, m, p).Some? ==> m in {GET, POST} && UnderApi(p, {"mypages", "trades"})
  {
    FirstMatchFromFinds(TradesRules, 0, m, p);
    var r := FirstMatchFrom(TradesRules, 0, m, p);
    if r.Some? {
      LiteralSegmentMet(TradesRules[r.value].matcher, p, 0);
      LiteralSegmentMet(TradesRules[r.value].matcher, p, 1);
    }
  }

  /** The websocket rules only match under /chat, /webjars and /ws-stomp. */
  lemma WebsocketScope(m: HttpMethod, p: Path)
    ensures FirstMatchFrom(WebsocketRules, 0, m, p).Some? ==>
      |p.segments| > 0 && p.segments[0] in {"chat", "webjars", "ws-stomp"}
  {
    FirstMatchFromFinds(WebsocketRules, 0, m, p);
    var r := FirstMatchFrom(WebsocketRules, 0, m, p);
    if r.Some? {
      LiteralSegmentMet(WebsocketRules[r.value].matcher, p, 0);
    }
  }

  /** Where each group starts in the whole table. */
  lemma GroupStarts()
    ensures Span(RuleGroups, 0, 0) == 0 && Span(RuleGroups, 0, 1) == 5 && Span(RuleGroups, 0, 2) == 10
    ensures Span(RuleGroups, 0, 3) == 13 && Span(RuleGroups, 0, 7) == 32 && Span(RuleGroups, 0, 9) == 39
  {
    assert Span(RuleGroups, 9, 9) == 0;
    assert Span(RuleGroups, 8, 9) == 4;
    assert Span(RuleGroups, 7, 9) == 7;
    assert Span(RuleGroups, 6, 9) == 13;
    assert Span(RuleGroups, 6, 7) == 6;
    assert Span(RuleGroups, 5, 7) == 12;
    assert Span(RuleGroups, 4, 7) == 15;
  }

  // ---------------------------------------------------------------------------
  // Individual requests

  /** /api/auth/members/me */
  const MyProfile := Path(["api", "auth", "members", "me"], false)
  /** /api/auth/members/42 */
  const OtherProfile := Path(["api", "auth", "members", "42"], false)
  /** /api/auth/members/me/password */
  const MyPassword := Path(["api", "auth", "members", "me", "password"], false)
  /** /api/categories/5/items */
  const CategoryItems := Path(["api", "categories", "5", "items"], false)
  /** /api/nearby-items */
  const NearbyItems := Path(["api", "nearby-items"], false)
  /** /api/mypages/orders */
  const MyOrders := Path(["api", "mypages", "orders"], false)
  /** /api/mypages/sales */
  const MySales := Path(["api", "mypages", "sales"], false)
  /** /swagger-ui/index.html */
  const SwaggerPage := Path(["swagger-ui", "index.html"], false)
  /** / */
  const Root := Path([], false)

  /** The texts of the request paths above. */
  lemma ProfileTexts()
    ensures Render(MyProfile) == "/api/auth/members/me"
    ensures Render(OtherProfile) == "/api/auth/members/42"
  {
  }

  lemma PasswordText()
    ensures Render(MyPassword) == "/api/auth/members/me/password"
  {
  }

  lemma CategoryItemsText()
    ensures Render(CategoryItems) == "/api/categories/5/items"
  {
  }

  lemma NearbyItemsText()
    ensures Render(NearbyItems) == "/api/nearby-items"
  {
  }

  lemma MyPageTexts()
    ensures Render(MyOrders) == "/api/mypages/orders"
    ensures Render(MySales) == "/api/mypages/sales"
  {
  }

  lemma SwaggerAndRootTexts()
    ensures Render(SwaggerPage) == "/swagger-ui/index.html"
    ensures Render(Root) == "/"
  {
  }

  /** GET /api/auth/members/me needs a login: the rule of line 69 comes first,
      although the permitAll() rules of lines 70 and 73 match it too. */
  lemma MyProfileNeedsLogin()
    ensures FirstMatch(AccessRules, GET, MyProfile) == Some(0)
    ensures Decide(AccessRules, GET, MyProfile, false) == Deny
    ensures Decide(AccessRules, GET, MyProfile, true) == Allow
    ensures RuleMatches(MembersRules[1], GET, MyProfile) && MembersRules[1].requirement == PermitAll
    ensures RuleMatches(MembersRules[4], GET, MyProfile) && MembersRules[4].requirement == PermitAll
  {
    assert FirstMatchFrom(MembersRules, 0, GET, MyProfile) == Some(0);
    DecidedInGroup(RuleGroups, 0, 0, GET, MyProfile, false);
    DecidedInGroup(RuleGroups, 0, 0, GET, MyProfile, true);
    GroupStarts();
  }

  /** /api/auth/members/me/ */
  const MyProfileSlash := Path(["api", "auth", "members", "me"], true)

  lemma ProfileSlashText()
    ensures Render(MyProfileSlash) == "/api/auth/members/me/"
  {
  }

  /** GET /api/auth/members/me/ (with a final "/") is public: AntPathMatcher
      needs pattern and path to agree on a final "/", so neither line 69 nor
      line 70 matches it, and the permitAll() rule of line 73 decides. */
  lemma MyProfileSlashPublic()
    ensures !RuleMatches(MembersRules[0], GET, MyProfileSlash)
    ensures FirstMatch(AccessRules, GET, MyProfileSlash) == Some(4)
    ensures Decide(AccessRules, GET, MyProfileSlash, false) == Allow
  {
    assert FirstMatchFrom(MembersRules, 0, GET, MyProfileSlash) == Some(4);
    DecidedInGroup(RuleGroups, 0, 4, GET, MyProfileSlash, false);
    GroupStarts();
  }

  /** A "*" stands for one whole segment: another member's profile is public
      by the rule of line 70. */
  lemma OtherProfilePublic()
    ensures FirstMatch(AccessRules, GET, OtherProfile) == Some(1)
    ensures Decide(AccessRules, GET, OtherProfile, false) == Allow
  {
    assert FirstMatchFrom(MembersRules, 0, GET, OtherProfile) == Some(1);
    DecidedInGroup(RuleGroups, 0, 1, GET, OtherProfile, false);
    GroupStarts();
  }

  /** A "*" in the middle of a pattern stands for one segment: the items of a
      category are public by the rule of line 80. */
  lemma CategoryItemsPublic()
    ensures FirstMatch(AccessRules, GET, CategoryItems) == Some(9)
    ensures Decide(AccessRules, GET, CategoryItems, false) == Allow
  {
    forall h | 0 <= h < 1 ensures FirstMatchFrom(RuleGroups[h], 0, GET, CategoryItems) == None {
      MembersScope(GET, CategoryItems);
    }
    assert FirstMatchFrom(CategoriesRules, 0, GET, CategoryItems) == Some(4);
    DecidedInGroup(RuleGroups, 1, 4, GET, CategoryItems, false);
    GroupStarts();
  }

  /** A trailing "**" covers the prefix itself: changing one's own account
      needs a login (line 71). */
  lemma OwnAccountChangeNeedsLogin()
    ensures FirstMatch(AccessRules, PUT, MyProfile) == Some(2)
    ensures Decide(AccessRules, PUT, MyProfile, false) == Deny
  {
    assert FirstMatchFrom(MembersRules, 0, PUT, MyProfile) == Some(2);
    DecidedInGroup(RuleGroups, 0, 2, PUT, MyProfile, false);
    GroupStarts();
  }

  /** A trailing "**" covers the prefix itself: deleting one's own account
      needs a login (line 72). */
  lemma OwnAccountDeletionNeedsLogin()
    ensures FirstMatch(AccessRules, DELETE, MyProfile) == Some(3)
    ensures Decide(AccessRules, DELETE, MyProfile, false) == Deny
  {
    assert FirstMatchFrom(MembersRules, 0, DELETE, MyProfile) == Some(3);
    DecidedInGroup(RuleGroups, 0, 3, DELETE, MyProfile, false);
    GroupStarts();
  }

  /** A trailing "**" covers everything below the prefix: changing one's
      password needs a login (line 71). */
  lemma OwnPasswordNeedsLogin()
    ensures FirstMatch(AccessRules, PUT, MyPassword) == Some(2)
    ensures Decide(AccessRules, PUT, MyPassword, false) == Deny
  {
    assert FirstMatchFrom(MembersRules, 0, PUT, MyPassword) == Some(2);
    DecidedInGroup(RuleGroups, 0, 2, PUT, MyPassword, false);
    GroupStarts();
  }

  /** GET /api/nearby-items needs a login (line 90). */
  lemma NearbyItemsGetNeedsLogin()
    ensures FirstMatch(AccessRules, GET, NearbyItems) == Some(15)
    ensures Decide(AccessRules, GET, NearbyItems, false) == Deny
  {
    forall h | 0 <= h < 3 ensures FirstMatchFrom(RuleGroups[h], 0, GET, NearbyItems) == None {
      if h == 0 { MembersScope(GET, NearbyItems); }
      else if h == 1 { CategoriesScope(GET, NearbyItems); }
      else { SwaggerScope(GET, NearbyItems); }
    }
    assert FirstMatchFrom(SearchRules, 0, GET, NearbyItems) == Some(2);
    DecidedInGroup(RuleGroups, 3, 2, GET, NearbyItems, false);
    GroupStarts();
  }

  /** No listed rule applies to POST /api/nearby-items. */
  lemma NearbyItemsPostMissesListedRules()
    ensures forall h :: 0 <= h < 9 ==> FirstMatchFrom(RuleGroups[h], 0, POST, NearbyItems) == None
  {
    forall h | 0 <= h < 9 ensures FirstMatchFrom(RuleGroups[h], 0, POST, NearbyItems) == None {
      if h == 0 { MembersScope(POST, NearbyItems); }
      else if h == 1 { CategoriesScope(POST, NearbyItems); }
      else if h == 2 { SwaggerScope(POST, NearbyItems); }
      else if h == 3 { SearchScope(POST, NearbyItems); }
      else if h == 4 { WishesScope(POST, NearbyItems); }
      else if h == 5 { FollowsScope(POST, NearbyItems); }
      else if h == 6 { ReviewsScope(POST, NearbyItems); }
      else if h == 7 { TradesScope(POST, NearbyItems); }
      else { WebsocketScope(POST, NearbyItems); }
    }
  }

  /** Rules name their method: POST to /api/nearby-items matches none of the
      listed rules, only the catch-all, and is permitted without a login. */
  lemma NearbyItemsPostPermitted()
    ensures FirstMatch(AccessRules, POST, NearbyItems) == Some(CatchAll)
    ensures Decide(AccessRules, POST, NearbyItems, false) == Allow
  {
    NearbyItemsPostMissesListedRules();
    assert FirstMatchFrom(CatchAllRules, 0, POST, NearbyItems) == Some(0);
    DecidedInGroup(RuleGroups, 9, 0, POST, NearbyItems, false);
    GroupStarts();
  }

  /** No rule before the trade rules applies to GET /api/mypages/orders. */
  lemma MyOrdersMissesGroups0To6()
    ensures forall h :: 0 <= h < 7 ==> FirstMatchFrom(RuleGroups[h], 0, GET, MyOrders) == None
  {
    forall h | 0 <= h < 7 ensures FirstMatchFrom(RuleGroups[h], 0, GET, MyOrders) == None {
      if h == 0 { MembersScope(GET, MyOrders); }
      else if h == 1 { CategoriesScope(GET, MyOrders); }
      else if h == 2 { SwaggerScope(GET, MyOrders); }
      else if h == 3 { SearchScope(GET, MyOrders); }
      else if h == 4 { WishesScope(GET, MyOrders); }
      else if h == 5 { FollowsScope(GET, MyOrders); }
      else { ReviewsScope(GET, MyOrders); }
    }
  }

  /** GET /api/mypages/orders is refused without a login and permitted with one
      (line 115). */
  lemma MyOrdersNeedLogin()
    ensures FirstMatch(AccessRules, GET, MyOrders) == Some(32)
    ensures Decide(AccessRules, GET, MyOrders, false) == Deny
    ensures Decide(AccessRules, GET, MyOrders, true) == Allow
  {
    MyOrdersMissesGroups0To6();
    assert FirstMatchFrom(TradesRules, 0, GET, MyOrders) == Some(0);
    DecidedInGroup(RuleGroups, 7, 0, GET, MyOrders, false);
    DecidedInGroup(RuleGroups, 7, 0, GET, MyOrders, true);
    GroupStarts();
  }

  /** No rule before the trade rules applies to GET /api/mypages/sales. */
  lemma MySalesMissesGroups0To6()
    ensures forall h :: 0 <= h < 7 ==> FirstMatchFrom(RuleGroups[h], 0, GET, MySales) == None
  {
    forall h | 0 <= h < 7 ensures FirstMatchFrom(RuleGroups[h], 0, GET, MySales) == None {
      if h == 0 { MembersScope(GET, MySales); }
      else if h == 1 { CategoriesScope(GET, MySales); }
      else if h == 2 { SwaggerScope(GET, MySales); }
      else if h == 3 { SearchScope(GET, MySales); }
      else if h == 4 { WishesScope(GET, MySales); }
      else if h == 5 { FollowsScope(GET, MySales); }
      else { ReviewsScope(GET, MySales); }
    }
  }

  /** GET /api/mypages/sales is refused without a login and permitted with one
      (line 116). */
  lemma MySalesNeedLogin()
    ensures FirstMatch(AccessRules, GET, MySales) == Some(33)
    ensures Decide(AccessRules, GET, MySales, false) == Deny
    ensures Decide(AccessRules, GET, MySales, true) == Allow
  {
    MySalesMissesGroups0To6();
    assert FirstMatchFrom(TradesRules, 0, GET, MySales) == Some(1);
    DecidedInGroup(RuleGroups, 7, 1, GET, MySales, false);
    DecidedInGroup(RuleGroups, 7, 1, GET, MySales, true);
    GroupStarts();
  }

  /** A rule written without a method applies to every method: DELETE on a
      swagger page is permitted (line 85). */
  lemma SwaggerPageAnyMethod()
    ensures FirstMatch(AccessRules, DELETE, SwaggerPage) == Some(12)
    ensures Decide(AccessRules, DELETE, SwaggerPage, false) == Allow
  {
    forall h | 0 <= h < 2 ensures FirstMatchFrom(RuleGroups[h], 0, DELETE, SwaggerPage) == None {
      if h == 0 { MembersScope(DELETE, SwaggerPage); }
      else { CategoriesScope(DELETE, SwaggerPage); }
    }
    assert FirstMatchFrom(SwaggerRules, 0, DELETE, SwaggerPage) == Some(2);
    DecidedInGroup(RuleGroups, 2, 2, DELETE, SwaggerPage, false);
    GroupStarts();
  }

  /** A rule written without a method applies to every method: POST to "/"
      is permitted (line 83). */
  lemma RootAnyMethod()
    ensures FirstMatch(AccessRules, POST, Root) == Some(10)
    ensures Decide(AccessRules, POST, Root, false) == Allow
  {
    forall h | 0 <= h < 2 ensures FirstMatchFrom(RuleGroups[h], 0, POST, Root) == None {
      if h == 0 { MembersScope(POST, Root); }
      else { CategoriesScope(POST, Root); }
    }
    assert FirstMatchFrom(SwaggerRules, 0, POST, Root) == Some(0);
    DecidedInGroup(RuleGroups, 2, 0, POST, Root, false);
    GroupStarts();
  }
}
