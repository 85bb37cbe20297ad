# Access rules, chat relay and item updates of a second-hand market backend

This project models three parts of a Spring Boot marketplace service.

- **The access rule table** that `WebSecurityConfig.securityFilterChain` installs. It holds 40 rules in order: 39 `antMatcher` rules and a final `anyRequest().permitAll()`.
  - Each rule is a method, or none, plus a path pattern and a requirement (`authenticated()` or `permitAll()`).
  - Spring checks the rules in order; the first one that matches the request decides.
  - The patterns use three forms: literal segments, whole-segment `*`, and a trailing `/**`.
  - The model gives the matchers on a request path in two forms:
    - as text, the way Spring's matchers see it: `AntPathMatcher` compares tokens, and the sub-path matcher for `.../**` compares characters;
    - as the list of the path's segments.
  - It proves that both forms decide alike for normalised paths.
  - It proves properties of the whole table:
    - an authenticated caller is never refused;
    - a request that no listed rule matches is permitted;
    - every refusal comes from an `authenticated()` rule;
    - the rule of line 79 is dead.
  - It also proves the decision for particular requests.
  - For each group of rules it proves which paths and methods that group can match at all. These scope lemmas make the per-request proofs short.
- **The chat relay**, `ChatController.message`.
  - An `ENTER` message has its body replaced in place by `sender + "님이 입장하셨습니다."`.
  - Every message, whatever its type, is then sent once to `"/sub/chat/room/" + roomId`. The `if` has no braces, so the send is outside it.
  - The messaging template is an outbox: the send appends the destination and a copy of the message to it.
- **The `Item` entity**: its constructor, `updateSubImage` and `update`.
  - These assign fields in place and append to the image list.
  - `Item` is a class, and each operation is proved against a function on a value snapshot of the object.
  - Lemmas about those functions state what the operations promise.

Two facts the model fixes:
- The join notice is the sender followed by the Korean suffix exactly as ChatController.java writes it.
- A request that matches no rule is refused. This is Spring Security 6's default. In this table the final `anyRequest().permitAll()` makes that case unreachable, and `WebSecurityConfig.AuthenticatedAlwaysAllowed` proves it.

## Model

| member | source | states |
|---|---|---|
| `RequestPaths.Tokenize` | src/main/java/com/example/demo/config/WebSecurityConfig.java:69-123 | The tokens AntPathMatcher compares are the pieces of the path text between its "/" characters, with empty pieces dropped. Every token is non-empty and has no "/". |
| `RequestPaths.Parse` | src/main/java/com/example/demo/config/WebSecurityConfig.java:69-123 | Reading a path text gives its tokens as segments. It records a trailing slash only for a text longer than "/" that ends with "/". |
| `RequestPaths.Render` | src/main/java/com/example/demo/config/WebSecurityConfig.java:69-123 | The text of a path starts with "/". It is "/" alone only for the root, or for a path whose first segment is empty, which is not well-formed. |
| `RequestPaths.TokenizeJoin` | src/main/java/com/example/demo/config/WebSecurityConfig.java:69-123 | The tokens Spring splits from "/s1/.../sn" are s1 ... sn, whether or not the text ends with "/". |
| `RequestPaths.ParseRender` | src/main/java/com/example/demo/config/WebSecurityConfig.java:69-123 | Reading back the text of a well-formed path gives the same path. |
| `RequestPaths.RenderParse` | src/main/java/com/example/demo/config/WebSecurityConfig.java:69-123 | A normalised path text reads as a well-formed path whose text is the original text. |
| `AntMatchers.SegmentMatches` | src/main/java/com/example/demo/config/WebSecurityConfig.java:69-123 | AntPathMatcher's comparison of one path token with one pattern segment. A literal segment accepts only the equal token, and "*" accepts every token. |
| `AntMatchers.AntMatchesFrom` | src/main/java/com/example/demo/config/WebSecurityConfig.java:69-123 | AntPathMatcher's comparison of a pattern without "**" against the path tokens from position i on. A match means the path has as many tokens as the pattern has segments and does not end with "/", or one token fewer, with a final "*" left over and a path that ends with "/". |
| `AntMatchers.AntMatches` | src/main/java/com/example/demo/config/WebSecurityConfig.java:69-123 | The same comparison from the start, where the pattern "/" matches only the root. A match means as many tokens as pattern segments, or one fewer with a final "*" and a trailing "/". |
| `AntMatchers.PrefixFrom` | src/main/java/com/example/demo/config/WebSecurityConfig.java:71-73 | The segment prefix test behind a "/**" pattern. A path that passes has at least as many segments as the prefix. |
| `AntMatchers.Matches` | src/main/java/com/example/demo/config/WebSecurityConfig.java:69-127 | Each matcher kind decided on segments. An Ant pattern accepts no path with more segments than it has, and a "/**" prefix accepts no path with fewer segments than it has. |
| `AntMatchers.SubpathMatchesText` | src/main/java/com/example/demo/config/WebSecurityConfig.java:71-73 | The character comparison of a "/**" pattern: the text starts with the prefix, followed by "/" or the end. The prefix itself, and the prefix followed by "/", always match. |
| `AntMatchers.MatchesText` | src/main/java/com/example/demo/config/WebSecurityConfig.java:69-127 | Each matcher kind applied to the raw path text, as Spring applies it. A "/**" pattern matches its own prefix text, and an Ant pattern never matches a text with more tokens than it has segments. |
| `AntMatchers.AntMatchesFromIff` | src/main/java/com/example/demo/config/WebSecurityConfig.java:69-123 | AntPathMatcher's token comparison in closed form. Every path token meets a pattern segment that accepts it. Then either both sides run out and the path does not end in "/", or a single "*" is left over and the path ends in "/". |
| `AntMatchers.PrefixFromIff` | src/main/java/com/example/demo/config/WebSecurityConfig.java:71-73 | The segment prefix test for a "/**" pattern holds exactly when the path has at least as many segments as the prefix and agrees with it. |
| `AntMatchers.SubpathJoin` | src/main/java/com/example/demo/config/WebSecurityConfig.java:71-73 | On path texts, the character-level sub-path test (starts with the prefix, followed by "/" or the end) is exactly the segment prefix test. |
| `AntMatchers.MatchesRendered` | src/main/java/com/example/demo/config/WebSecurityConfig.java:69-127 | Every matcher decides on the text of a well-formed path exactly as on its segments. |
| `AntMatchers.MatchesCanonical` | src/main/java/com/example/demo/config/WebSecurityConfig.java:69-127 | Every matcher decides on a normalised path text exactly as on the segments read from it. |
| `AntMatchers.LiteralSegmentMet` | src/main/java/com/example/demo/config/WebSecurityConfig.java:69-123 | A literal pattern segment, or a segment of a "/**" prefix, only ever matches an equal path segment at the same position. |
| `AntMatchers.AntCovers` | src/main/java/com/example/demo/config/WebSecurityConfig.java:78-79 | A pattern that has "*" wherever it differs from another matches every path the other matches. |
| `SecurityRules.RuleMatches` | src/main/java/com/example/demo/config/WebSecurityConfig.java:69-127 | A rule matches when its method, if it names one, is the request's method and its matcher accepts the path. A rule that names another method never matches. A method-less anyRequest() rule always matches. |
| `SecurityRules.RuleMatchesText` | src/main/java/com/example/demo/config/WebSecurityConfig.java:69-127 | The test Spring runs for each rule on the servlet path text. A rule that names another method never matches, and a method-less anyRequest() rule always matches. |
| `SecurityRules.FirstMatchFrom` | src/main/java/com/example/demo/config/WebSecurityConfig.java:67-127 | The search from position i returns nothing, or a position from i up to the end of the table. |
| `SecurityRules.FirstMatch` | src/main/java/com/example/demo/config/WebSecurityConfig.java:67-127 | The position found holds a rule that matches, and no rule before it matches. When nothing is found, no rule of the table matches. |
| `SecurityRules.Grant` | src/main/java/com/example/demo/config/WebSecurityConfig.java:67-127 | A rule refuses exactly when it requires authenticated() and the caller is anonymous. |
| `SecurityRules.Decide` | src/main/java/com/example/demo/config/WebSecurityConfig.java:67-127 | The decision of the table. An authenticated caller is refused only when no rule matches. A request whose first matching rule is permitAll() is allowed. |
| `SecurityRules.FirstMatchTextFrom` | src/main/java/com/example/demo/config/WebSecurityConfig.java:67-127 | The search on the path text from position i returns the first position from i on whose rule matches the text, with no matching rule between i and it. It returns nothing exactly when no rule from i on matches the text. |
| `SecurityRules.DecideText` | src/main/java/com/example/demo/config/WebSecurityConfig.java:67-127 | The decision taken on the path text, as Spring takes it. An authenticated caller is refused only when no rule matches the text. |
| `SecurityRules.FirstMatchTextFromAgrees` | src/main/java/com/example/demo/config/WebSecurityConfig.java:67-127 | When every rule answers alike on a text and on a segment path, the searches on the two find the same rule. |
| `SecurityRules.DecideTextAgrees` | src/main/java/com/example/demo/config/WebSecurityConfig.java:67-127 | When every rule answers alike on a text and on a segment path, the two decisions are the same. |
| `SecurityRules.FirstMatchSpec` | src/main/java/com/example/demo/config/WebSecurityConfig.java:67-127 | The search returns a rule that matches, with no earlier rule matching. It returns nothing exactly when no rule matches. |
| `SecurityRules.DecideAt` | src/main/java/com/example/demo/config/WebSecurityConfig.java:67-127 | The first matching rule alone decides. What comes after it is never consulted. |
| `SecurityRules.DenyIff` | src/main/java/com/example/demo/config/WebSecurityConfig.java:67-127 | A request is refused exactly when no rule matches, or when the caller is anonymous and the first matching rule requires authentication. |
| `SecurityRules.CatchAllNeverDeniesAuthenticated` | src/main/java/com/example/demo/config/WebSecurityConfig.java:127 | A method-less anyRequest() rule guarantees a match, so an authenticated caller is always allowed. |
| `SecurityRules.RemoveCovered` | src/main/java/com/example/demo/config/WebSecurityConfig.java:67-127 | Deleting a rule whose matches an earlier rule also matches changes no decision. |
| `SecurityRules.FirstMatchAppend` | src/main/java/com/example/demo/config/WebSecurityConfig.java:67-127 | The first match in two tables one after the other is the first match in the first table, or else the first match in the second, shifted by the length of the first. |
| `SecurityRules.FirstMatchFlatten` | src/main/java/com/example/demo/config/WebSecurityConfig.java:67-127 | Searching a table written as consecutive groups is searching group by group. |
| `SecurityRules.DecidedInGroup` | src/main/java/com/example/demo/config/WebSecurityConfig.java:67-127 | When no rule of the first g groups matches and rule k is group g's first match, the table's first match is rule k of group g. Its position is counted from the start of the table, and that rule decides. |
| `WebSecurityConfig.AccessRulesLayout` | src/main/java/com/example/demo/config/WebSecurityConfig.java:67-127 | The table `AccessRules` is the ten groups of rules in source order: member, category, swagger, search, wish, follow, review, trade and websocket rules, then the catch-all. It holds 40 rules, and the last is the method-less anyRequest().permitAll() of line 127. |
| `WebSecurityConfig.AuthenticatedAlwaysAllowed` | src/main/java/com/example/demo/config/WebSecurityConfig.java:127 | Some rule always matches, and an authenticated caller is allowed every request. |
| `WebSecurityConfig.UnlistedRequestsAllowed` | src/main/java/com/example/demo/config/WebSecurityConfig.java:126-127 | A request that none of the 39 listed rules matches is decided by the catch-all and allowed, with or without a login. |
| `WebSecurityConfig.DeniedOnlyByAuthenticatedRule` | src/main/java/com/example/demo/config/WebSecurityConfig.java:67-127 | Every refusal is of an anonymous caller whose first matching rule is a listed authenticated() rule. |
| `WebSecurityConfig.AccessRulesOnText` | src/main/java/com/example/demo/config/WebSecurityConfig.java:67-127 | Each rule of the table, applied to a normalised path text, answers as it does on the segments read from that text. |
| `WebSecurityConfig.AccessRulesDecideOnText` | src/main/java/com/example/demo/config/WebSecurityConfig.java:67-127 | On every normalised path text, the table's decision is its decision on the segments read from that text. So every decision proved on segments holds for the request as Spring sees it. |
| `WebSecurityConfig.Line79Shadowed` | src/main/java/com/example/demo/config/WebSecurityConfig.java:78-79 | Removing the rule of line 79 changes no decision, because the rule of line 78 matches everything it matches. |
| `WebSecurityConfig.MembersScope` | src/main/java/com/example/demo/config/WebSecurityConfig.java:69-73 | The member rules only match GET, PUT and DELETE requests under /api/auth. |
| `WebSecurityConfig.CategoriesScope` | src/main/java/com/example/demo/config/WebSecurityConfig.java:76-80 | The category rules only match GET requests under /api/categories. |
| `WebSecurityConfig.SwaggerScope` | src/main/java/com/example/demo/config/WebSecurityConfig.java:83-85 | The swagger rules only match "/", "/v3/api-docs" and the paths below it, and "/swagger-ui" and the paths below it. |
| `WebSecurityConfig.SearchScope` | src/main/java/com/example/demo/config/WebSecurityConfig.java:88-91 | The search rules only match GET requests under /api/items, /api/top-items, /api/nearby-items and /api/members. |
| `WebSecurityConfig.WishesScope` | src/main/java/com/example/demo/config/WebSecurityConfig.java:94-96 | The wish rules only match POST and GET requests under /api/items, and /api/mypages/wishlists. |
| `WebSecurityConfig.FollowsScope` | src/main/java/com/example/demo/config/WebSecurityConfig.java:99-104 | The follow rules only match POST, GET and DELETE requests under /api/shops, /api/members and /api/follows, and /api/mypages/followerlists. |
| `WebSecurityConfig.ReviewsScope` | src/main/java/com/example/demo/config/WebSecurityConfig.java:107-112 | The review rules only match requests under /api/reviews and /api/member. |
| `WebSecurityConfig.TradesScope` | src/main/java/com/example/demo/config/WebSecurityConfig.java:115-117 | The trade rules only match GET and POST requests under /api/mypages and /api/trades. |
| `WebSecurityConfig.WebsocketScope` | src/main/java/com/example/demo/config/WebSecurityConfig.java:120-123 | The websocket rules only match paths under /chat, /webjars and /ws-stomp. |
| `WebSecurityConfig.MyProfileNeedsLogin` | src/main/java/com/example/demo/config/WebSecurityConfig.java:69-73 | GET /api/auth/members/me is decided by rule 0 (line 69). It is refused anonymously and allowed with a login, although the permitAll() rules of lines 70 and 73 also match it. |
| `WebSecurityConfig.MyProfileSlashPublic` | src/main/java/com/example/demo/config/WebSecurityConfig.java:69-73 | GET /api/auth/members/me/ (with a final "/") is not matched by line 69, because AntPathMatcher requires pattern and path to agree on a final "/". Line 73 decides it, so it is allowed without a login. |
| `WebSecurityConfig.OtherProfilePublic` | src/main/java/com/example/demo/config/WebSecurityConfig.java:70 | GET /api/auth/members/42 is decided by line 70 ("*" is one segment) and allowed without a login. |
| `WebSecurityConfig.CategoryItemsPublic` | src/main/java/com/example/demo/config/WebSecurityConfig.java:80 | GET /api/categories/5/items is decided by line 80 and allowed without a login. |
| `WebSecurityConfig.OwnAccountChangeNeedsLogin` | src/main/java/com/example/demo/config/WebSecurityConfig.java:71 | PUT /api/auth/members/me is decided by line 71 ("/**" covers the prefix itself) and refused anonymously. |
| `WebSecurityConfig.OwnAccountDeletionNeedsLogin` | src/main/java/com/example/demo/config/WebSecurityConfig.java:72 | DELETE /api/auth/members/me is decided by line 72 and refused anonymously. |
| `WebSecurityConfig.OwnPasswordNeedsLogin` | src/main/java/com/example/demo/config/WebSecurityConfig.java:71 | PUT /api/auth/members/me/password is decided by line 71 ("/**" covers what is below the prefix) and refused anonymously. |
| `WebSecurityConfig.NearbyItemsGetNeedsLogin` | src/main/java/com/example/demo/config/WebSecurityConfig.java:90 | GET /api/nearby-items is decided by line 90 and refused anonymously. |
| `WebSecurityConfig.NearbyItemsPostMissesListedRules` | src/main/java/com/example/demo/config/WebSecurityConfig.java:69-123 | No listed rule matches POST /api/nearby-items. |
| `WebSecurityConfig.NearbyItemsPostPermitted` | src/main/java/com/example/demo/config/WebSecurityConfig.java:127 | POST /api/nearby-items falls through to the catch-all and is allowed without a login. |
| `WebSecurityConfig.MyOrdersMissesGroups0To6` | src/main/java/com/example/demo/config/WebSecurityConfig.java:69-112 | No rule before the trade rules matches GET /api/mypages/orders. |
| `WebSecurityConfig.MyOrdersNeedLogin` | src/main/java/com/example/demo/config/WebSecurityConfig.java:115 | GET /api/mypages/orders is decided by line 115. It is refused anonymously and allowed with a login. |
| `WebSecurityConfig.MySalesMissesGroups0To6` | src/main/java/com/example/demo/config/WebSecurityConfig.java:69-112 | No rule before the trade rules matches GET /api/mypages/sales. |
| `WebSecurityConfig.MySalesNeedLogin` | src/main/java/com/example/demo/config/WebSecurityConfig.java:116 | GET /api/mypages/sales is decided by line 116. It is refused anonymously and allowed with a login. |
| `WebSecurityConfig.SwaggerPageAnyMethod` | src/main/java/com/example/demo/config/WebSecurityConfig.java:85 | DELETE /swagger-ui/index.html is decided by the method-less rule of line 85 and allowed. |
| `WebSecurityConfig.RootAnyMethod` | src/main/java/com/example/demo/config/WebSecurityConfig.java:83 | POST / is decided by the method-less rule of line 83 and allowed. |
| `Chat.ChatController.Message` | src/main/java/com/example/demo/chat/ChatController.java:15-20 | The message is left rewritten as `Relayed` says. The outbox gains exactly one entry for every call, whatever the type. That entry is the room's destination and the message as rewritten. |
| `Chat.ChatMessage.Value` | src/main/java/com/example/demo/chat/ChatController.java:17-19 | The contents the handler reads through the getters: type, room id, sender and body, each the current field. |
| `Chat.ChatMessage.SetMessage` | src/main/java/com/example/demo/chat/ChatController.java:18 | Only the body changes, and it becomes the argument. |
| `Chat.Broker.ConvertAndSend` | src/main/java/com/example/demo/chat/ChatController.java:19 | Exactly one entry is appended, holding the destination and a copy of the message as it is at that moment. |
| `Chat.Relayed` | src/main/java/com/example/demo/chat/ChatController.java:17-18 | The rewrite keeps the type, room and sender. |
| `Chat.EnterNotice` | src/main/java/com/example/demo/chat/ChatController.java:18 | The notice is the sender's name followed by the fixed join text. |
| `Chat.Destination` | src/main/java/com/example/demo/chat/ChatController.java:19 | The destination is "/sub/chat/room/" followed by the room id. |
| `Chat.EnterBodyIsNotice` | src/main/java/com/example/demo/chat/ChatController.java:17-18 | An ENTER message leaves with exactly the join notice as its body, whatever body the client sent. |
| `Chat.OthersUnchanged` | src/main/java/com/example/demo/chat/ChatController.java:17-18 | A TALK message, or one with no type, leaves unchanged. |
| `Chat.RelayedIdempotent` | src/main/java/com/example/demo/chat/ChatController.java:17-18 | Relaying an already relayed message changes nothing more. |
| `Chat.RelayedChangesIff` | src/main/java/com/example/demo/chat/ChatController.java:17-18 | The message changes exactly when it is ENTER and its body is not already the notice. |
| `Chat.EnterNoticeInjective` | src/main/java/com/example/demo/chat/ChatController.java:18 | Different senders get different notices. |
| `Chat.DestinationInjective` | src/main/java/com/example/demo/chat/ChatController.java:19 | Different rooms get different destinations. |
| `Chat.DestinationRoom` | src/main/java/com/example/demo/chat/ChatController.java:19 | A string is a room's destination exactly when it is the room prefix followed by that room id. |
| `Chat.RelayTwo` | src/main/java/com/example/demo/chat/ChatController.java:15-20 | Two messages handled one after the other yield two entries in order. Each goes to its own room, carries its own rewrite, and is unaffected by the later call. |
| `Items.Constructed` | src/main/java/com/example/demo/item/entity/Item.java:68-77 | The item the constructor builds. Name, price, comment, main image, shop and delivery fee flag are the arguments. It has no trade state, category or location. |
| `Items.Item.GetId` | src/main/java/com/example/demo/item/entity/Item.java:69 | The Lombok getter `getId()` returns the current id field. |
| `Items.Item.constructor` | src/main/java/com/example/demo/item/entity/Item.java:68-77 | The new item is `Constructed` from the arguments. |
| `Items.Item.UpdateSubImage` | src/main/java/com/example/demo/item/entity/Item.java:79-81 | The new state is `WithSubImages` of the old state. |
| `Items.Item.Update` | src/main/java/com/example/demo/item/entity/Item.java:83-89 | The new state is `Updated` of the old state. |
| `Items.WithSubImages` | src/main/java/com/example/demo/item/entity/Item.java:79-81 | The images become the old images followed by the new ones. Name, price, comment, main image, id, state, delivery fee flag, shop, category, wishes, chat rooms and location are unchanged. |
| `Items.Updated` | src/main/java/com/example/demo/item/entity/Item.java:83-89 | Name, price, comment and main image become the arguments. The images are the old ones followed by the new ones. Id, state, delivery fee flag, shop, category, wishes, chat rooms and location are unchanged. |
| `Items.ConstructedImages` | src/main/java/com/example/demo/item/entity/Item.java:42-77 | A new item has exactly the given images, in order. It has no id, because `getId()` reads the still-null field, and no wishes or chat rooms. |
| `Items.WithNoSubImages` | src/main/java/com/example/demo/item/entity/Item.java:79-81 | `updateSubImage` of an empty list changes nothing. |
| `Items.WithSubImagesTwice` | src/main/java/com/example/demo/item/entity/Item.java:79-81 | Adding images in two calls is the same as adding them all in one call. |
| `Items.UpdatedThenImages` | src/main/java/com/example/demo/item/entity/Item.java:83-89 | `update` is its four assignments followed by `updateSubImage`. |
| `Items.UpdatedWithoutImages` | src/main/java/com/example/demo/item/entity/Item.java:83-89 | `update` with no images leaves the images as they were. Repeating it with the same values then changes nothing. |
| `Items.UpdatedKeepsImages` | src/main/java/com/example/demo/item/entity/Item.java:88 | `update` never loses an image: each old image keeps its position. |

## Left out

- The rest of `securityFilterChain` (lines 58-65 and 130-133) is not part of this model: the extra configuration, disabling CSRF, the stateless session policy and the two JWT filters. The JWT filters decide whether a request carries an authenticated principal; the model takes that as a boolean.
- What `filterChainRingContainer.configure(http)` (line 58) adds is not shown. The model requires that it installs no authorization rule ahead of the table.
- Spring's default firewall (StrictHttpFirewall) is not modelled. It rejects some requests before any matcher runs:
  - paths with "//", or with "." or ".." segments;
  - the percent-encodings of `/`, `.`, `%`, `\` and `;`;
  - `%00`, `%0a`/`%0A` and `%0d`/`%0D`, and the raw NUL, LF and CR characters;
  - the characters U+2028 and U+2029.
- The lemmas that relate text and segments require `Canonical`, which means a path that starts with "/" and has no "//". `Canonical` admits every other character, and it admits "." and ".." segments, which the model treats as literal tokens. So these lemmas cover a superset of the paths that reach the matchers; what is left out is the firewall's rejection of the others.
- The AntPathMatcher features this table never uses are not modelled: "?", "{name}" variables, "*" inside a segment, "**" before the end of a pattern, and case-insensitive matching.
- Each per-request lemma is stated on the segment form of the request path. `AccessRulesDecideOnText` and the `...Text` lemmas next to the request constants carry each of them over to the text.
- `ChatMessage` itself is not part of this model. Its fields (type, room id, sender, body) are read off the getters and the setter the controller calls.
- Null strings are not modelled. In Java, a null sender or room id would be concatenated as "null". A missing message type is modelled as `None`, which is never ENTER.
- JSON serialisation of the outbox entries, STOMP delivery to subscribers, and the `ChatDocs` documentation interface are not modelled.
- The JPA mapping of `Item` (annotations, lazy loading, cascades, generated ids), its `TimeStamp` base class, the Lombok setters and the no-argument constructor are not modelled.
- A null image list, which makes `addAll` throw, is not modelled.
- Sharing of the live image list through its getter is not modelled: the model's list is a value.
- The entities `Item` refers to (shop, category, wishes, chat rooms, location, trade state) are identities only.
