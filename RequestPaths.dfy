/** The request path that Spring Security's AntPathRequestMatcher looks at
    (the servlet path), in two forms: the raw text, and the list of its
    '/'-separated segments.  Spring's token-based matcher (AntPathMatcher)
    works on the segments, its sub-path matcher on the raw text; the lemmas
    here show that, for a normalised path, the two forms carry the same
    information. */
module RequestPaths {

  /** A path given by its non-empty segments in order and by whether its text
      ends with '/'.  The root path "/" is Path([], false). */
  datatype Path = Path(segments: seq<string>, trailingSlash: bool)

  /** A segment is a non-empty piece of text without a '/'. */
  predicate ValidSegment(s: string) {
    |s| > 0 && '/' !in s
  }

  predicate ValidSegments(segments: seq<string>) {
    forall i :: 0 <= i < |segments| ==> ValidSegment(segments[i])
  }

  /** Valid segments, and a single way of writing the root path. */
  predicate WellFormed(p: Path) {
    ValidSegments(p.segments) && (p.segments == [] ==> !p.trailingSlash)
  }

  /** Whether the text of p ends with '/'; the root path "/" does. */
  predicate EndsWithSlash(p: Path) {
    p.trailingSlash || p.segments == []
  }

  /** "/s1/s2/.../sn", and "" for no segments. */
  function Join(segments: seq<string>): string {
    if segments == [] then "" else "/" + segments[0] + Join(segments[1..])
  }

  /** The text of a path. */
  function Render(p: Path): (s: string)
    ensures |s| > 0 && s[0] == '/'
    ensures |s| == 1 ==> p.segments == [] || p.segments[0] == ""
  {
    Join(p.segments) + (if EndsWithSlash(p) then "/" else "")
  }

  /** A servlet path that starts with '/' and never has two '/' in a row.
      Spring Security's default firewall (StrictHttpFirewall) rejects a path
      with "//" before any matcher sees it.  It also rejects more, such as "."
      and ".." segments; this predicate admits those, so it describes a
      superset of the paths that reach the matchers. */
  predicate Canonical(s: string) {
    |s| > 0 && s[0] == '/' && forall i :: 0 <= i < |s| - 1 ==> !(s[i] == '/' && s[i + 1] == '/')
  }

  /** Length of the leading segment of s: the characters before the first '/'. */
  function SegmentLength(s: string): (n: nat)
    ensures n <= |s| && '/' !in s[..n]
    ensures n == |s| || s[n] == '/'
    ensures |s| > 0 && s[0] != '/' ==> n > 0
  {
    if s == [] || s[0] == '/' then 0
    else
      var n := 1 + SegmentLength(s[1..]);
      assert s[..n] == [s[0]] + s[1..][..n - 1];
      n
  }

  /** The pieces of s between the '/' characters, empty pieces dropped: what
      Spring's StringUtils.tokenizeToStringArray(s, "/", false, true) returns,
      and so the tokens AntPathMatcher compares (tokens are not trimmed). */
  function Tokenize(s: string): (tokens: seq<string>)
    ensures ValidSegments(tokens)
    decreases |s|
  {
    if s == [] then []
    else if s[0] == '/' then Tokenize(s[1..])
    else
      var n := SegmentLength(s);
      [s[..n]] + Tokenize(s[n..])
  }

  /** The segment form of a text path. */
  function Parse(s: string): (p: Path)
    ensures ValidSegments(p.segments)
    ensures p.trailingSlash ==> |s| > 1 && s[|s| - 1] == '/'
  {
    Path(Tokenize(s), |s| > 1 && s[|s| - 1] == '/')
  }

  // ---------------------------------------------------------------------------
  // Lemmas

  /** The leading segment of a + r is a itself when r is empty or starts a new
      segment. */
  lemma {:induction false} SegmentLengthOfJoined(a: string, r: string)
    requires '/' !in a
    requires r == [] || r[0] == '/'
    ensures SegmentLength(a + r) == |a|
    ensures (a + r)[..|a|] == a && (a + r)[|a|..] == r
    decreases |a|
  {
    if a != [] {
      assert a[0] in a;
      assert (a + r)[1..] == a[1..] + r;
      assert '/' !in a[1..] by {
        forall c | c in a[1..] ensures c in a { }
      }
      SegmentLengthOfJoined(a[1..], r);
    } else {
      assert a + r == r;
    }
  }

  /** The tokens of "/s1/.../sn" followed by "" or "/" are s1, ..., sn. */
  lemma {:induction false} TokenizeJoin(segments: seq<string>, tail: string)
    requires ValidSegments(segments)
    requires tail == "" || tail == "/"
    ensures Tokenize(Join(segments) + tail) == segments
    decreases |segments|
  {
    if segments == [] {
      assert Join(segments) + tail == tail;
      if tail == "/" {
        assert tail[1..] == [];
      }
    } else {
      var a, rest := segments[0], segments[1..];
      var r := Join(rest) + tail;
      assert ValidSegment(a);
      assert r == [] || r[0] == '/' by {
        if rest != [] {
          assert Join(rest)[0] == '/';
        }
      }
      calc {
        Join(segments) + tail;
        "/" + a + Join(rest) + tail;
        "/" + (a + r);
      }
      var s := "/" + (a + r);
      assert s[1..] == a + r;
      SegmentLengthOfJoined(a, r);
      assert Tokenize(a + r) == [a] + Tokenize(r);
      TokenizeJoin(rest, tail);
    }
  }

  /** The last character of "/s1/.../sn" is the last character of sn. */
  lemma {:induction false} JoinLast(segments: seq<string>)
    requires ValidSegments(segments) && segments != []
    ensures |Join(segments)| > 0 && Join(segments)[0] == '/'
    ensures Join(segments)[|Join(segments)| - 1] != '/'
    decreases |segments|
  {
    var a, rest := segments[0], segments[1..];
    assert ValidSegment(a);
    if rest == [] {
      assert Join(segments) == "/" + a;
      assert a[|a| - 1] in a;
    } else {
      JoinLast(rest);
      assert Join(segments) == "/" + a + Join(rest);
    }
  }

  /** The text of a path starts with '/', and ends with '/' exactly when the
      path says so. */
  lemma RenderShape(p: Path)
    requires WellFormed(p)
    ensures |Render(p)| > 0 && Render(p)[0] == '/'
    ensures Render(p)[|Render(p)| - 1] == '/' <==> EndsWithSlash(p)
    ensures |Render(p)| > 1 <==> p.segments != []
  {
    if p.segments == [] {
      assert Render(p) == "/";
    } else {
      JoinLast(p.segments);
    }
  }

  /** Reading back the text of a well-formed path gives the path itself. */
  lemma ParseRender(p: Path)
    requires WellFormed(p)
    ensures Parse(Render(p)) == p
  {
    RenderShape(p);
    TokenizeJoin(p.segments, if EndsWithSlash(p) then "/" else "");
  }

  /** A normalised path text other than "/" is '/', a first segment, and a
      remainder that is empty, "/" or again a normalised path. */
  lemma SplitFirstSegment(s: string) returns (a: string, r: string)
    requires Canonical(s) && |s| > 1
    ensures ValidSegment(a) && s == "/" + a + r
    ensures Tokenize(s) == [a] + Tokenize(r)
    ensures r == [] || r == "/" || (Canonical(r) && r[1] != '/')
  {
    var rest := s[1..];
    assert rest[0] != '/' by { assert !(s[0] == '/' && s[1] == '/'); }
    var n := SegmentLength(rest);
    a, r := rest[..n], rest[n..];
    assert rest == a + r;
    assert Tokenize(s) == Tokenize(rest);
    if |r| > 1 {
      forall i | 0 <= i < |r| - 1
        ensures !(r[i] == '/' && r[i + 1] == '/')
      {
        assert r[i] == s[1 + n + i] && r[i + 1] == s[1 + n + i + 1];
      }
      assert r[1] != '/' by { assert !(s[1 + n] == '/' && s[2 + n] == '/'); }
    }
  }

  /** Putting a segment in front of a non-root path puts "/" and that segment
      in front of its text. */
  lemma RenderCons(a: string, q: Path)
    requires ValidSegment(a) && WellFormed(q) && q.segments != []
    ensures WellFormed(Path([a] + q.segments, q.trailingSlash))
    ensures Render(Path([a] + q.segments, q.trailingSlash)) == "/" + a + Render(q)
  {
    var segments := [a] + q.segments;
    assert segments[0] == a && segments[1..] == q.segments;
    assert Join(segments) == "/" + a + Join(q.segments);
  }

  /** A normalised path text is the text of the path read from it. */
  lemma {:induction false} RenderParse(s: string)
    requires Canonical(s)
    ensures WellFormed(Parse(s))
    ensures Render(Parse(s)) == s
    decreases |s|
  {
    if |s| == 1 {
      assert Tokenize(s) == Tokenize(s[1..]) == [];
      assert Render(Parse(s)) == "/" == s;
    } else {
      var a, r := SplitFirstSegment(s);
      assert s[|s| - 1] == (if r == [] then a[|a| - 1] else r[|r| - 1]);
      if r == [] {
        assert a[|a| - 1] in a;
        assert Parse(s) == Path([a], false);
        assert Join([a]) == "/" + a + Join([]);
      } else if r == "/" {
        assert Tokenize(r) == Tokenize(r[1..]) == [];
        assert Parse(s) == Path([a], true);
        assert Join([a]) == "/" + a + Join([]);
      } else {
        RenderParse(r);
        var q := Parse(r);
        RenderShape(q);
        assert Parse(s) == Path([a] + q.segments, q.trailingSlash);
        RenderCons(a, q);
      }
    }
  }
}
