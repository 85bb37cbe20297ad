/** The part of Spring Security's AntPathRequestMatcher that the access rules
    of WebSecurityConfig use.  A pattern made only of literal segments and
    whole-segment '*' goes to Spring's AntPathMatcher, which compares tokens;
    a pattern made of a literal prefix and a final "**" segment goes to a
    sub-path matcher,
    which compares characters; anyRequest() matches everything.  Matching is
    case-sensitive, as antMatcher(...) builds it. */
module AntMatchers {
  import opened RequestPaths

  /** No character of s is one that AntPathMatcher treats as a wildcard. */
  predicate Plain(s: string) {
    '*' !in s && '?' !in s && '{' !in s && '}' !in s
  }

  /** A literal pattern segment: plain text without '/'. */
  type PlainSegment = s: string | ValidSegment(s) && Plain(s) witness "a"

  /** One '/'-separated piece of an Ant pattern: text compared literally
      (the rule table writes only plain segments here), or "*", which stands
      for one whole path segment. */
  datatype Segment = Literal(text: string) | Star

  datatype Matcher =
    /** "/s1/.../sn" with each si plain text or "*"; Ant([]) is "/". */
    | Ant(pattern: seq<Segment>)
    /** "/s1/.../sn" followed by a final "**" segment: the path "/s1/.../sn"
        itself and everything below it. */
    | Subpath(prefix: seq<PlainSegment>)
    /** anyRequest() */
    | AnyRequest

  /** A literal segment equals the token exactly; "*" accepts any token. */
  predicate SegmentMatches(g: Segment, token: string)
    ensures g.Literal? && SegmentMatches(g, token) ==> token == g.text
    ensures g.Star? ==> SegmentMatches(g, token)
  {
    g.Star? || g.text == token
  }

  /** AntPathMatcher.doMatch for a non-empty pattern without "**", from
      pattern segment and path token i on: segments and tokens are compared
      pairwise until one side runs out.  When both run out together the path
      must not end with '/' (the pattern does not).  When only the path runs
      out, the match still succeeds if exactly one pattern segment is left,
      it is "*", and the path ends with '/'.  When only the pattern runs out,
      the match fails. */
  predicate AntMatchesFrom(ps: seq<Segment>, tokens: seq<string>, i: nat, pathEndsWithSlash: bool)
    requires i <= |tokens|
    ensures AntMatchesFrom(ps, tokens, i, pathEndsWithSlash) ==>
      || (|tokens| == |ps| && !pathEndsWithSlash)
      || (|tokens| + 1 == |ps| && ps[|tokens|].Star? && pathEndsWithSlash)
    decreases |tokens| - i
  {
    if i == |tokens| then
      (i == |ps| && !pathEndsWithSlash) || (i + 1 == |ps| && ps[i].Star? && pathEndsWithSlash)
    else
      i < |ps| && SegmentMatches(ps[i], tokens[i]) && AntMatchesFrom(ps, tokens, i + 1, pathEndsWithSlash)
  }

  /** AntPathMatcher.doMatch for a pattern without "**".  The pattern "/" has
      no segments and ends with '/': it matches only a path without tokens
      that ends with '/'. */
  predicate AntMatches(ps: seq<Segment>, tokens: seq<string>, pathEndsWithSlash: bool)
    ensures AntMatches(ps, tokens, pathEndsWithSlash) ==>
      |tokens| == |ps| || (|tokens| + 1 == |ps| && ps[|tokens|].Star? && pathEndsWithSlash)
  {
    if ps == [] then tokens == [] && pathEndsWithSlash
    else AntMatchesFrom(ps, tokens, 0, pathEndsWithSlash)
  }

  /** The segments of pre from position i on stand at the same places in
      segments. */
  predicate PrefixFrom(pre: seq<string>, segments: seq<string>, i: nat)
    requires i <= |pre|
    ensures PrefixFrom(pre, segments, i) && i < |pre| ==> |pre| <= |segments|
    decreases |pre| - i
  {
    i == |pre| || (i < |segments| && pre[i] == segments[i] && PrefixFrom(pre, segments, i + 1))
  }

  /** Whether the matcher accepts the path, stated on its segments. */
  predicate Matches(m: Matcher, p: Path)
    ensures Matches(m, p) && m.Ant? ==> |p.segments| <= |m.pattern|
    ensures Matches(m, p) && m.Subpath? ==> |m.prefix| <= |p.segments|
  {
    match m
    case Ant(ps) => AntMatches(ps, p.segments, EndsWithSlash(p))
    case Subpath(pre) => PrefixFrom(pre, p.segments, 0)
    case AnyRequest => true
  }

  // ---------------------------------------------------------------------------
  // What Spring computes from the raw servlet path

  /** SubpathMatcher.matches for subpath followed by a "**" segment: the path starts
      with subpath and the next character, if any, is '/'. */
  predicate SubpathMatchesText(subpath: string, s: string)
    ensures s == subpath || s == subpath + "/" ==> SubpathMatchesText(subpath, s)
  {
    |subpath| <= |s| && s[..|subpath|] == subpath && (|s| == |subpath| || s[|subpath|] == '/')
  }

  /** The matcher applied to the path text the way Spring applies it: an Ant
      pattern (which starts with '/') needs a path starting with '/' and then
      compares the path's tokens; a sub-path pattern compares characters. */
  predicate MatchesText(m: Matcher, s: string)
    ensures m.Subpath? && s == Join(m.prefix) ==> MatchesText(m, s)
    ensures MatchesText(m, s) && m.Ant? ==> |Tokenize(s)| <= |m.pattern|
  {
    match m
    case Ant(ps) => |s| > 0 && s[0] == '/' && AntMatches(ps, Tokenize(s), s[|s| - 1] == '/')
    case Subpath(pre) => SubpathMatchesText(Join(pre), s)
    case AnyRequest => true
  }

  // ---------------------------------------------------------------------------
  // Lemmas

  /** A segment a cannot stand where a longer segment b stands. */
  lemma ShorterSegmentNoSubpath(a: string, b: string, q: string, r: string)
    requires ValidSegment(a) && ValidSegment(b) && |a| < |b|
    requires q == [] || q[0] == '/'
    ensures !SubpathMatchesText("/" + a + q, "/" + b + r)
  {
    var sub, s := "/" + a + q, "/" + b + r;
    var k := 1 + |a|;
    assert s[k] == b[|a|] && b[|a|] in b;
    if q != [] && |sub| <= |s| {
      assert sub[k] == q[0];
      assert s[..|sub|][k] == s[k];
    }
  }

  /** A segment a cannot stand where a shorter segment b stands. */
  lemma LongerSegmentNoSubpath(a: string, b: string, q: string, r: string)
    requires ValidSegment(a) && ValidSegment(b) && |a| > |b|
    requires r == [] || r[0] == '/'
    ensures !SubpathMatchesText("/" + a + q, "/" + b + r)
  {
    var sub, s := "/" + a + q, "/" + b + r;
    var j := 1 + |b|;
    assert sub[j] == a[|b|] && a[|b|] in a;
    if r != [] && |sub| <= |s| {
      assert s[j] == r[0];
      assert s[..|sub|][j] == s[j];
    }
  }

  /** One step of the sub-path comparison: "/a..." is a sub-path of "/b..."
      exactly when a and b are the same segment and the rests agree. */
  lemma SubpathStep(a: string, b: string, q: string, r: string)
    requires ValidSegment(a) && ValidSegment(b)
    requires q == [] || q[0] == '/'
    requires r == [] || r[0] == '/'
    ensures SubpathMatchesText("/" + a + q, "/" + b + r) <==> a == b && SubpathMatchesText(q, r)
  {
    var sub, s := "/" + a + q, "/" + b + r;
    if |a| < |b| {
      ShorterSegmentNoSubpath(a, b, q, r);
    } else if |a| > |b| {
      LongerSegmentNoSubpath(a, b, q, r);
    } else {
      var k := 1 + |a|;
      assert s[1..k] == b && sub[1..k] == a;
      if |sub| <= |s| {
        assert s[1..k] == s[..|sub|][1..k];
        assert s[..|sub|][k..] == r[..|q|] && sub[k..] == q;
        assert s[..|sub|] == sub <==> a == b && r[..|q|] == q;
        assert |s| > |sub| ==> s[|sub|] == r[|q|];
      }
    }
  }

  /** On the text of a path, the sub-path comparison of characters is the
      prefix comparison of segments. */
  lemma {:induction false} SubpathJoin(pre: seq<string>, segments: seq<string>, tail: string)
    requires ValidSegments(pre) && ValidSegments(segments)
    requires tail == "" || tail == "/"
    requires segments == [] ==> tail == "/"
    ensures SubpathMatchesText(Join(pre), Join(segments) + tail) <==> pre <= segments
    decreases |pre|
  {
    var s := Join(segments) + tail;
    if pre == [] {
      if segments != [] {
        JoinLast(segments);
      }
      assert s[..0] == [];
    } else if segments == [] {
      assert |Join(pre)| >= 2 > |s|;
    } else {
      var a, b := pre[0], segments[0];
      assert ValidSegment(a) && ValidSegment(b);
      var q, r := Join(pre[1..]), Join(segments[1..]) + tail;
      if pre[1..] != [] {
        JoinLast(pre[1..]);
      }
      if segments[1..] != [] {
        JoinLast(segments[1..]);
        assert r[0] == '/';
      }
      assert Join(pre) == "/" + a + q;
      assert s == "/" + b + r;
      SubpathStep(a, b, q, r);
      if segments[1..] == [] && tail == "" {
        // the rest of the path is empty
        assert r == [];
        assert SubpathMatchesText(q, r) <==> pre[1..] == [];
        assert pre <= segments <==> a == b && pre[1..] == [];
      } else {
        SubpathJoin(pre[1..], segments[1..], tail);
        PrefixCons(pre, segments);
      }
    }
  }

  /** Two non-empty sequences: one is a prefix of the other exactly when
      their first elements agree and the rest of one is a prefix of the rest
      of the other. */
  lemma PrefixCons(pre: seq<string>, segments: seq<string>)
    requires pre != [] && segments != []
    ensures pre <= segments <==> pre[0] == segments[0] && pre[1..] <= segments[1..]
  {
    if |pre| <= |segments| {
      assert segments[..|pre|] == [segments[0]] + segments[1..][..|pre| - 1];
      assert pre == [pre[0]] + pre[1..];
    }
  }

  /** The comparison from position i on holds exactly when nothing is left to
      compare, or segments is at least as long as pre and agrees with it from
      position i on. */
  lemma {:induction false} PrefixFromIff(pre: seq<string>, segments: seq<string>, i: nat)
    requires i <= |pre|
    ensures PrefixFrom(pre, segments, i) <==> i == |pre| || (|pre| <= |segments| && pre[i..] == segments[i..|pre|])
    decreases |pre| - i
  {
    if i < |pre| {
      PrefixFromIff(pre, segments, i + 1);
      if |pre| <= |segments| {
        assert pre[i..] == [pre[i]] + pre[i + 1..];
        assert segments[i..|pre|] == [segments[i]] + segments[i + 1..|pre|];
      }
    }
  }

  /** doMatch from position i on, in closed form: every remaining token meets
      a pattern segment that accepts it, and then either both sides have run
      out and the path does not end with '/', or a single "*" is left over
      and the path does. */
  lemma {:induction false} AntMatchesFromIff(ps: seq<Segment>, tokens: seq<string>, i: nat, pathEndsWithSlash: bool)
    requires i <= |tokens|
    ensures AntMatchesFrom(ps, tokens, i, pathEndsWithSlash) <==>
      (forall j :: i <= j < |tokens| ==> j < |ps| && SegmentMatches(ps[j], tokens[j])) &&
      ((|ps| == |tokens| && !pathEndsWithSlash) || (|ps| == |tokens| + 1 && ps[|tokens|].Star? && pathEndsWithSlash))
    decreases |tokens| - i
  {
    if i < |tokens| {
      AntMatchesFromIff(ps, tokens, i + 1, pathEndsWithSlash);
    }
  }

  /** A literal segment of a pattern, or a segment of a sub-path prefix, only
      ever meets a path segment equal to it, at the same place. */
  lemma LiteralSegmentMet(m: Matcher, p: Path, i: nat)
    requires Matches(m, p)
    requires (m.Ant? && i < |m.pattern| && m.pattern[i].Literal?) || (m.Subpath? && i < |m.prefix|)
    ensures i < |p.segments|
    ensures p.segments[i] == if m.Ant? then m.pattern[i].text else m.prefix[i]
  {
    if m.Ant? {
      AntMatchesFromIff(m.pattern, p.segments, 0, EndsWithSlash(p));
      assert i < |p.segments| && SegmentMatches(m.pattern[i], p.segments[i]);
    } else {
      PrefixFromIff(m.prefix, p.segments, 0);
      assert m.prefix[i] == m.prefix[0..][i];
    }
  }

  /** On the text of a well-formed path, Spring's matcher decides as Matches
      does on its segments. */
  lemma MatchesRendered(m: Matcher, p: Path)
    requires WellFormed(p)
    ensures MatchesText(m, Render(p)) <==> Matches(m, p)
  {
    var tail := if EndsWithSlash(p) then "/" else "";
    match m
    case Ant(ps) =>
      RenderShape(p);
      TokenizeJoin(p.segments, tail);
    case Subpath(pre) =>
      SubpathJoin(pre, p.segments, tail);
      PrefixFromIff(pre, p.segments, 0);
    case AnyRequest =>
  }

  /** On a normalised path text, Spring's matcher decides as Matches does on
      the segments read from it. */
  lemma MatchesCanonical(m: Matcher, s: string)
    requires Canonical(s)
    ensures MatchesText(m, s) <==> Matches(m, Parse(s))
  {
    RenderParse(s);
    MatchesRendered(m, Parse(s));
  }

  /** Every segment of ps is "*" or equals the segment of qs at its place. */
  predicate Generalizes(ps: seq<Segment>, qs: seq<Segment>) {
    |ps| == |qs| && forall i :: 0 <= i < |ps| ==> ps[i].Star? || ps[i] == qs[i]
  }

  lemma {:induction false} GeneralizesFrom(ps: seq<Segment>, qs: seq<Segment>, tokens: seq<string>, i: nat, pathEndsWithSlash: bool)
    requires i <= |tokens|
    requires Generalizes(ps, qs) && AntMatchesFrom(qs, tokens, i, pathEndsWithSlash)
    ensures AntMatchesFrom(ps, tokens, i, pathEndsWithSlash)
    decreases |tokens| - i
  {
    if i < |tokens| {
      GeneralizesFrom(ps, qs, tokens, i + 1, pathEndsWithSlash);
    }
  }

  /** A pattern that generalizes another matches every path the other does. */
  lemma AntCovers(ps: seq<Segment>, qs: seq<Segment>, p: Path)
    requires Generalizes(ps, qs)
    requires Matches(Ant(qs), p)
    ensures Matches(Ant(ps), p)
  {
    if ps != [] {
      GeneralizesFrom(ps, qs, p.segments, 0, EndsWithSlash(p));
    }
  }
}
