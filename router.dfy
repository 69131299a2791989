/**
 * pkg/lambdas/router.go: request path normalisation, route templates with
 * `{name}` placeholders, path-parameter capture and the 404/405/callback
 * dispatch.
 *
 * A template is compiled, as the router does with a regular expression, into
 * literal characters and placeholders; a placeholder matches a run of
 * characters other than '/'. The route table is a sequence searched from the
 * front (Go's map iteration order is unspecified; the sequence is one such order).
 */
module Router {
  import opened Wrappers
  import Text
  import Http

  // ---------------------------------------------------------------------------
  // Path normalisation (router.go:34-40)
  // ---------------------------------------------------------------------------

  /**
   * Drop one trailing '/', split on '/', and keep the segments after the
   * stage/base prefix: from the fifth part on when there are more than four
   * parts, otherwise from the second.
   */
  function NormalizePath(path: string): (p: string)
    ensures |p| >= 1 && p[0] == '/'
  {
    var parts := Text.Split(Text.TrimSuffix(path, "/"), '/');
    if |parts| > 4 then "/" + Text.Join(parts[4..], "/")
    else "/" + Text.Join(parts[1..], "/")
  }

  /**
   * The normalised path is "/" followed by the text after the fourth '/' of
   * the trimmed path when it has at least four, otherwise by the text after
   * its first '/' (nothing when it has none).
   */
  lemma NormalizeKeepsTail(path: string)
    ensures var t := Text.TrimSuffix(path, "/");
      NormalizePath(path) == "/" + Text.After(t, '/', if Text.Count(t, '/') >= 4 then 4 else 1)
  {
    var t := Text.TrimSuffix(path, "/");
    var parts := Text.Split(t, '/');
    Text.SplitCount(t, '/');
    if |parts| > 4 {
      Text.JoinSplitFrom(t, '/', 4);
    } else if |parts| > 1 {
      Text.JoinSplitFrom(t, '/', 1);
    } else {
      assert Text.Count(t, '/') == 0;
      NoSeparatorAfter(t, '/');
    }
  }

  lemma {:induction false} NoSeparatorAfter(s: string, c: char)
    requires Text.Count(s, c) == 0
    ensures Text.After(s, c, 1) == ""
  {
    if |s| > 0 {
      NoSeparatorAfter(s[1..], c);
    }
  }

  /** At most one trailing '/' is ignored: "/a/b/" and "/a/b" normalise alike. */
  lemma NormalizeTrailingSlash(path: string)
    requires |path| == 0 || path[|path| - 1] != '/'
    ensures NormalizePath(path + "/") == NormalizePath(path)
  {
    assert Text.TrimSuffix(path + "/", "/") == path;
  }

  /** The example of router.go:61: the stage prefix "/api/v1/test" is dropped. */
  lemma NormalizeExample()
    ensures NormalizePath("/api/v1/test/hello/123") == "/hello/123"
  {
    var parts := ["", "api", "v1", "test", "hello", "123"];
    JoinExample(["hello", "123"], parts);
    NormalizeParts("/api/v1/test/hello/123", parts);
  }

  /** The same example, with the path given as the join of its parts. */
  lemma NormalizeParts(path: string, parts: seq<string>)
    requires parts == ["", "api", "v1", "test", "hello", "123"]
    requires Text.Join(parts, "/") == path
    ensures NormalizePath(path) == "/hello/123"
  {
    Text.SplitJoin(parts, '/');
    assert parts == parts[..5] + ["123"];
    Text.JoinSnoc(parts[..5], "123", "/");
    assert Text.TrimSuffix(path, "/") == path;
    Text.JoinCons("hello", ["123"], "/");
    assert parts[4..] == ["hello", "123"];
  }

  lemma JoinExample(tail: seq<string>, parts: seq<string>)
    requires tail == ["hello", "123"] && parts == ["", "api", "v1", "test"] + tail
    ensures Text.Join(parts, "/") == "/api/v1/test/hello/123"
  {
    Text.JoinCons("hello", ["123"], "/");
    var c := ["test"] + tail;
    Text.JoinCons("test", tail, "/");
    var d := ["v1"] + c;
    Text.JoinCons("v1", c, "/");
    var e := ["api"] + d;
    Text.JoinCons("api", d, "/");
    Text.JoinCons("", e, "/");
    assert [""] + e == parts;
  }

  // ---------------------------------------------------------------------------
  // Templates (router.go:50-52)
  // ---------------------------------------------------------------------------

  /** A compiled template: literal characters and named placeholders. */
  datatype Piece = Lit(c: char) | Hole(name: string)

  /** The text a piece stands for in a template. */
  function PieceText(p: Piece): string
  {
    match p
    case Lit(c) => [c]
    case Hole(name) => "{" + name + "}"
  }

  /** Writes a compiled template back as text. */
  function Render(pieces: seq<Piece>): string
  {
    if |pieces| == 0 then "" else PieceText(pieces[0]) + Render(pieces[1..])
  }

  lemma RenderCons(p: Piece, rest: seq<Piece>)
    ensures Render([p] + rest) == PieceText(p) + Render(rest)
  {
    assert ([p] + rest)[1..] == rest;
  }

  lemma HeadSplit(template: string)
    requires |template| > 0
    ensures template == [template[0]] + template[1..]
  {
  }

  /** A template opening with a placeholder that closes at `close` is that placeholder and the rest. */
  lemma PlaceholderSplit(template: string, close: nat)
    requires 0 < close < |template| && template[0] == '{' && template[close] == '}'
    ensures template == "{" + template[1..close] + "}" + template[close + 1..]
  {
    assert template == template[..1] + template[1..close] + template[close..close + 1] + template[close + 1..];
  }

  /**
   * What replacing every `{([^}]*)}` by a named group does: scanning from the
   * left, a '{' that has a '}' somewhere after it opens a placeholder that
   * ends at the first such '}'; every other character is literal. Compiling
   * loses nothing: rendering the pieces gives the template back.
   */
  function Compile(template: string): (pieces: seq<Piece>)
    ensures Render(pieces) == template
    decreases |template|
  {
    if |template| == 0 then []
    else if template[0] == '{' && '}' in template[1..] then
      var close := 1 + Text.IndexOf(template[1..], '}');
      var name := template[1..close];
      var rest := Compile(template[close + 1..]);
      RenderCons(Hole(name), rest);
      PlaceholderSplit(template, close);
      [Hole(name)] + rest
    else
      var rest := Compile(template[1..]);
      RenderCons(Lit(template[0]), rest);
      HeadSplit(template);
      [Lit(template[0])] + rest
  }

  /** Placeholder names never contain '}'. */
  lemma {:induction false} CompileNames(template: string)
    ensures forall i :: 0 <= i < |Compile(template)| && Compile(template)[i].Hole? ==> '}' !in Compile(template)[i].name
    decreases |template|
  {
    if |template| > 0 {
      if template[0] == '{' && '}' in template[1..] {
        var close := 1 + Text.IndexOf(template[1..], '}');
        CompileNames(template[close + 1..]);
        assert template[1..close] == template[1..][..close - 1];
      } else {
        CompileNames(template[1..]);
      }
    }
  }

  /** `{name}` with a '}'-free name, then the rest, compiles to a placeholder followed by the rest. */
  lemma CompilePlaceholder(name: string, rest: string)
    requires '}' !in name
    ensures Compile("{" + name + "}" + rest) == [Hole(name)] + Compile(rest)
  {
    var t := "{" + name + "}" + rest;
    var tail := t[1..];
    assert tail == name + "}" + rest;
    assert tail[|name|] == '}' && tail[..|name|] == name;
    Text.IndexOfFirst(tail, '}', |name|);
    assert t[1..1 + |name|] == name && t[|name| + 2..] == rest;
  }

  /** A character that opens no placeholder compiles to a literal followed by the rest. */
  lemma CompileLiteral(c: char, rest: string)
    requires c != '{' || '}' !in rest
    ensures Compile([c] + rest) == [Lit(c)] + Compile(rest)
  {
    assert ([c] + rest)[1..] == rest;
  }

  /**
   * The pieces a template can compile to: placeholder names have no '}', and
   * a literal '{' has no '}' anywhere after it (else it would have opened a
   * placeholder).
   */
  predicate WellFormed(pieces: seq<Piece>)
  {
    (forall i :: 0 <= i < |pieces| && pieces[i].Hole? ==> '}' !in pieces[i].name) &&
    (forall i :: 0 <= i < |pieces| && pieces[i] == Lit('{') ==> '}' !in Render(pieces[i + 1..]))
  }

  lemma WellFormedCons(p: Piece, rest: seq<Piece>)
    ensures WellFormed([p] + rest) <==>
      (p.Hole? ==> '}' !in p.name) && (p == Lit('{') ==> '}' !in Render(rest)) && WellFormed(rest)
  {
    var ps := [p] + rest;
    assert ps[1..] == rest;
    assert forall i :: 0 < i < |ps| ==> ps[i] == rest[i - 1] && ps[i + 1..] == rest[i..];
    if WellFormed(ps) {
      assert ps[0] == p;
      if p == Lit('{') {
        assert '}' !in Render(ps[0 + 1..]);
      }
      forall i | 0 <= i < |rest| && rest[i] == Lit('{') ensures '}' !in Render(rest[i + 1..]) {
        assert ps[i + 1] == rest[i];
      }
      forall i | 0 <= i < |rest| && rest[i].Hole? ensures '}' !in rest[i].name {
        assert ps[i + 1] == rest[i];
      }
    }
  }

  /** Every template compiles to well-formed pieces. */
  lemma {:induction false} CompileWellFormed(template: string)
    ensures WellFormed(Compile(template))
    decreases |template|
  {
    if |template| > 0 {
      if template[0] == '{' && '}' in template[1..] {
        var close := 1 + Text.IndexOf(template[1..], '}');
        CompileWellFormed(template[close + 1..]);
        var name := template[1..close];
        assert name == template[1..][..close - 1];
        assert '}' !in name;
        WellFormedCons(Hole(name), Compile(template[close + 1..]));
      } else {
        var rest := Compile(template[1..]);
        CompileWellFormed(template[1..]);
        assert Render(rest) == template[1..];
        WellFormedCons(Lit(template[0]), rest);
      }
    }
  }

  /**
   * Compiling the text of well-formed pieces gives those pieces back. With
   * `Compile`'s own round trip this makes `Compile` the one function from
   * templates to well-formed pieces that renders back to the template.
   */
  lemma {:induction false} CompileRender(pieces: seq<Piece>)
    requires WellFormed(pieces)
    ensures Compile(Render(pieces)) == pieces
  {
    if |pieces| > 0 {
      var p, rest := pieces[0], pieces[1..];
      assert pieces == [p] + rest;
      WellFormedCons(p, rest);
      CompileRender(rest);
      RenderCons(p, rest);
      match p
      case Hole(name) =>
        CompilePlaceholder(name, Render(rest));
      case Lit(c) =>
        CompileLiteral(c, Render(rest));
    }
  }

  /** A route's template with one trailing '/' removed, compiled. */
  function RoutePattern(template: string): seq<Piece>
  {
    Compile(Text.TrimSuffix(template, "/"))
  }

  /** "/hello/" and "/hello" are the same route (pkg/internal/api/hello.go:12). */
  lemma RoutePatternTrailingSlash(template: string)
    requires |template| == 0 || template[|template| - 1] != '/'
    ensures RoutePattern(template + "/") == RoutePattern(template)
  {
    assert Text.TrimSuffix(template + "/", "/") == template;
  }

  // ---------------------------------------------------------------------------
  // Matching (router.go:52-54)
  // ---------------------------------------------------------------------------

  function HoleCount(pieces: seq<Piece>): nat
  {
    if |pieces| == 0 then 0 else (if pieces[0].Hole? then 1 else 0) + HoleCount(pieces[1..])
  }

  function HoleNames(pieces: seq<Piece>): (names: seq<string>)
    ensures |names| == HoleCount(pieces)
  {
    if |pieces| == 0 then []
    else (if pieces[0].Hole? then [pieces[0].name] else []) + HoleNames(pieces[1..])
  }

  /** The template with each placeholder replaced by its captured text. */
  function Fill(pieces: seq<Piece>, captures: seq<string>): string
    requires |captures| == HoleCount(pieces)
  {
    if |pieces| == 0 then ""
    else match pieces[0]
      case Lit(c) => [c] + Fill(pieces[1..], captures)
      case Hole(_) => captures[0] + Fill(pieces[1..], captures[1..])
  }

  /** Length of the leading run of non-'/' characters: what one placeholder may take. */
  function SegmentLength(s: string): (n: nat)
    ensures n <= |s| && '/' !in s[..n]
    ensures n < |s| ==> s[n] == '/'
  {
    if |s| == 0 || s[0] == '/' then 0
    else
      var n := 1 + SegmentLength(s[1..]);
      assert s[..n] == [s[0]] + s[1..][..n - 1];
      n
  }

  /**
   * The anchored match `^pattern$`, with the captures a backtracking matcher
   * picks: each placeholder takes the longest run that still lets the rest
   * match (Go reports the submatches that leftmost-first matching picks).
   */
  function Match(pieces: seq<Piece>, s: string): (r: Option<seq<string>>)
    ensures r.Some? ==> |r.value| == HoleCount(pieces)
    decreases |pieces|, 1, 0
  {
    if |pieces| == 0 then (if |s| == 0 then Some([]) else None)
    else match pieces[0]
      case Lit(c) => if |s| > 0 && s[0] == c then Match(pieces[1..], s[1..]) else None
      case Hole(_) => MatchHole(pieces[1..], s, SegmentLength(s))
  }

  /** A placeholder followed by `rest`, trying capture lengths k, k - 1, ..., 0. */
  function MatchHole(rest: seq<Piece>, s: string, k: nat): (r: Option<seq<string>>)
    requires k <= |s|
    ensures r.Some? ==> |r.value| == HoleCount(rest) + 1
    decreases |rest| + 1, 0, k
  {
    match Match(rest, s[k..])
    case Some(caps) => Some([s[..k]] + caps)
    case None => if k == 0 then None else MatchHole(rest, s, k - 1)
  }

  /** A capture never contains '/'. */
  predicate SlashFree(captures: seq<string>)
  {
    forall i :: 0 <= i < |captures| ==> '/' !in captures[i]
  }

  /** Soundness: a match fills each placeholder with a '/'-free capture that rebuilds the path. */
  lemma {:induction false} MatchSound(pieces: seq<Piece>, s: string)
    requires Match(pieces, s).Some?
    ensures |Match(pieces, s).value| == HoleCount(pieces)
    ensures SlashFree(Match(pieces, s).value)
    ensures Fill(pieces, Match(pieces, s).value) == s
    decreases |pieces|, 1, 0
  {
    if |pieces| > 0 {
      match pieces[0]
      case Lit(c) =>
        MatchSound(pieces[1..], s[1..]);
      case Hole(_) =>
        MatchHoleSound(pieces[1..], s, SegmentLength(s));
        assert [pieces[0]] + pieces[1..] == pieces;
    }
  }

  lemma {:induction false} MatchHoleSound(rest: seq<Piece>, s: string, k: nat)
    requires k <= SegmentLength(s)
    requires MatchHole(rest, s, k).Some?
    ensures var caps := MatchHole(rest, s, k).value;
      |caps| == HoleCount(rest) + 1 && SlashFree(caps) &&
      caps[0] + Fill(rest, caps[1..]) == s
    decreases |rest| + 1, 0, k
  {
    match Match(rest, s[k..])
    case Some(caps) =>
      MatchSound(rest, s[k..]);
      CaptureThenRest(rest, s, k, caps);
    case None =>
      MatchHoleSound(rest, s, k - 1);
  }

  /** The capture of the first `k` characters of the segment, then what `rest` matched after it. */
  lemma CaptureThenRest(rest: seq<Piece>, s: string, k: nat, caps: seq<string>)
    requires k <= SegmentLength(s)
    requires |caps| == HoleCount(rest) && SlashFree(caps) && Fill(rest, caps) == s[k..]
    ensures var all := [s[..k]] + caps;
      |all| == HoleCount(rest) + 1 && SlashFree(all) && all[0] + Fill(rest, all[1..]) == s
  {
    var all := [s[..k]] + caps;
    assert all[1..] == caps;
    assert s[..k] == s[..SegmentLength(s)][..k];
    assert s[..k] + s[k..] == s;
  }

  /** Completeness: if the path is the template filled with '/'-free captures, the template matches. */
  lemma {:induction false} MatchComplete(pieces: seq<Piece>, captures: seq<string>, s: string)
    requires |captures| == HoleCount(pieces) && SlashFree(captures)
    requires Fill(pieces, captures) == s
    ensures Match(pieces, s).Some?
    decreases |pieces|
  {
    if |pieces| > 0 {
      match pieces[0]
      case Lit(c) =>
        MatchComplete(pieces[1..], captures, s[1..]);
      case Hole(_) =>
        var cap := captures[0];
        var tail := Fill(pieces[1..], captures[1..]);
        assert s == cap + tail;
        assert s[..|cap|] == cap && s[|cap|..] == tail;
        CaptureWithinSegment(s, cap);
        MatchComplete(pieces[1..], captures[1..], tail);
        MatchHoleFinds(pieces[1..], s, SegmentLength(s), |cap|);
    }
  }

  /** A '/'-free prefix lies within the leading segment. */
  lemma CaptureWithinSegment(s: string, cap: string)
    requires |cap| <= |s| && s[..|cap|] == cap && '/' !in cap
    ensures |cap| <= SegmentLength(s)
  {
  }

  /** Trying lengths from k down finds a match whenever length j <= k works. */
  lemma {:induction false} MatchHoleFinds(rest: seq<Piece>, s: string, k: nat, j: nat)
    requires j <= k <= |s|
    requires Match(rest, s[j..]).Some?
    ensures MatchHole(rest, s, k).Some?
    decreases k
  {
    if Match(rest, s[k..]).None? {
      MatchHoleFinds(rest, s, k - 1, j);
    }
  }

  /** A template matches a path exactly when the path is the template with '/'-free text in each placeholder. */
  lemma MatchIff(pieces: seq<Piece>, s: string)
    ensures Match(pieces, s).Some? <==>
      exists captures :: |captures| == HoleCount(pieces) && SlashFree(captures) && Fill(pieces, captures) == s
  {
    if Match(pieces, s).Some? {
      MatchSound(pieces, s);
      var caps := Match(pieces, s).value;
      assert |caps| == HoleCount(pieces) && SlashFree(caps) && Fill(pieces, caps) == s;
    }
    if exists captures :: |captures| == HoleCount(pieces) && SlashFree(captures) && Fill(pieces, captures) == s {
      var caps :| |caps| == HoleCount(pieces) && SlashFree(caps) && Fill(pieces, caps) == s;
      MatchComplete(pieces, caps, s);
    }
  }

  // ---------------------------------------------------------------------------
  // Routes and the search (router.go:46-71)
  // ---------------------------------------------------------------------------

  /** `AdditionalInfo`: query parameters and the request body as decoded JSON. */
  datatype AdditionalInfo<B> = AdditionalInfo(queryParams: map<string, string>, body: B)

  /** A route callback, given the path parameters and the additional info. */
  type Callback<!B> = (map<string, string>, AdditionalInfo<B>) -> Http.Response

  datatype RouteMethodConfig<!B> = RouteMethodConfig(callback: Callback<B>, authenticate: bool)

  datatype RouteConfig<!B> = RouteConfig(methods: map<string, RouteMethodConfig<B>>)

  /** One entry of the route map: a template and its per-method configuration. */
  datatype Route<!B> = Route(template: string, config: RouteConfig<B>)

  /** `events.APIGatewayProxyRequest`, reduced to what the router reads. */
  datatype Request = Request(
    path: string,
    httpMethod: string,
    pathParameters: Http.StringMap?,
    queryStringParameters: map<string, string>,
    body: string)

  /** The first route whose pattern matches, with its captures. */
  datatype Found = Found(index: nat, captures: seq<string>)

  /** Whether, and with which captures, a route's pattern matches the path. */
  function RouteMatch<B>(route: Route<B>, path: string): Option<seq<string>>
  {
    Match(RoutePattern(route.template), path)
  }

  /** The outcome of matching each route against the path, in table order. */
  function Matches<B>(routes: seq<Route<B>>, path: string): (ms: seq<Option<seq<string>>>)
    ensures |ms| == |routes| && forall i :: 0 <= i < |routes| ==> ms[i] == RouteMatch(routes[i], path)
  {
    seq(|routes|, i requires 0 <= i < |routes| => RouteMatch(routes[i], path))
  }

  /** The route the search loop stops at: the first match wins; `None` when none matches. */
  function FirstMatch<B>(routes: seq<Route<B>>, path: string): (f: Option<Found>)
    ensures f.Some? ==> (f.value.index < |routes| &&
      RouteMatch(routes[f.value.index], path) == Some(f.value.captures))
    ensures f.Some? ==> forall i :: 0 <= i < f.value.index ==> RouteMatch(routes[i], path).None?
    ensures f.None? ==> forall i :: 0 <= i < |routes| ==> RouteMatch(routes[i], path).None?
  {
    var ms := Matches(routes, path);
    FirstSomeFromSpec(ms, 0);
    FirstSomeFrom(ms, 0)
  }

  /** The search over the match outcomes from position `from` on. */
  function FirstSomeFrom(ms: seq<Option<seq<string>>>, from: nat): Option<Found>
    requires from <= |ms|
    decreases |ms| - from
  {
    if from == |ms| then None
    else if ms[from].Some? then Some(Found(from, ms[from].value))
    else FirstSomeFrom(ms, from + 1)
  }

  /**
   * The search from `from` stops at the first outcome at or after `from` that
   * is a match, with its captures, and finds nothing only when there is none.
   */
  lemma {:induction false} FirstSomeFromSpec(ms: seq<Option<seq<string>>>, from: nat)
    requires from <= |ms|
    ensures var f := FirstSomeFrom(ms, from);
      f.Some? ==> (from <= f.value.index < |ms| && ms[f.value.index] == Some(f.value.captures))
    ensures var f := FirstSomeFrom(ms, from);
      f.Some? ==> forall i :: from <= i < f.value.index ==> ms[i].None?
    ensures var f := FirstSomeFrom(ms, from);
      f.None? ==> forall i :: from <= i < |ms| ==> ms[i].None?
    decreases |ms| - from
  {
    if from < |ms| && ms[from].None? {
      FirstSomeFromSpec(ms, from + 1);
    }
  }

  /**
   * The path-parameter writes of router.go:63-67, in group order: each named
   * placeholder stores its capture, so a later one with the same name wins.
   */
  function WriteParams(m: map<string, string>, names: seq<string>, captures: seq<string>): map<string, string>
    requires |names| == |captures|
  {
    if |names| == 0 then m
    else
      var n := |names| - 1;
      var m' := WriteParams(m, names[..n], captures[..n]);
      if names[n] == "" then m' else m'[names[n] := captures[n]]
  }

  /** Entries whose key is no placeholder name are left alone. */
  lemma {:induction false} WriteParamsKeeps(m: map<string, string>, names: seq<string>, captures: seq<string>)
    requires |names| == |captures|
    ensures forall k :: k !in names ==>
      (k in WriteParams(m, names, captures) <==> k in m) &&
      (k in m ==> WriteParams(m, names, captures)[k] == m[k])
  {
    if |names| > 0 {
      var n := |names| - 1;
      WriteParamsKeeps(m, names[..n], captures[..n]);
      forall k | k !in names ensures k !in names[..n] && k != names[n] {
        assert names == names[..n] + [names[n]];
      }
    }
  }

  /** Each placeholder name maps to the capture of its last occurrence. */
  lemma {:induction false} WriteParamsLast(m: map<string, string>, names: seq<string>, captures: seq<string>)
    requires |names| == |captures|
    ensures forall i :: 0 <= i < |names| && names[i] != "" && (forall j :: i < j < |names| ==> names[j] != names[i]) ==>
      names[i] in WriteParams(m, names, captures) && WriteParams(m, names, captures)[names[i]] == captures[i]
  {
    if |names| > 0 {
      var n := |names| - 1;
      WriteParamsLast(m, names[..n], captures[..n]);
      var w, w' := WriteParams(m, names, captures), WriteParams(m, names[..n], captures[..n]);
      forall i | 0 <= i < |names| && names[i] != "" && (forall j :: i < j < |names| ==> names[j] != names[i])
        ensures names[i] in w && w[names[i]] == captures[i]
      {
        if i < n {
          assert names[..n][i] == names[i] && captures[..n][i] == captures[i];
          assert names[n] != names[i];
          assert forall j :: i < j < |names[..n]| ==> names[..n][j] != names[..n][i];
        }
      }
    }
  }

  /** The loop of router.go:63-67 over the match's named groups. */
  method WriteCaptures(params: Http.StringMap, names: seq<string>, captures: seq<string>)
    requires |names| == |captures|
    modifies params
    ensures params.entries == WriteParams(old(params.entries), names, captures)
  {
    for i := 0 to |names|
      invariant params.entries == WriteParams(old(params.entries), names[..i], captures[..i])
    {
      assert names[..i + 1][..i] == names[..i];
      assert captures[..i + 1][..i] == captures[..i];
      if names[i] != "" {
        params.entries := params.entries[names[i] := captures[i]];
      }
    }
    assert names[..|names|] == names && captures[..|captures|] == captures;
  }

  /** Whether dispatching `path` writes into the path-parameter map. */
  predicate WritesParams<B>(routes: seq<Route<B>>, path: string)
  {
    match FirstMatch(routes, path)
    case None => false
    case Some(f) =>
      var names := HoleNames(RoutePattern(routes[f.index].template));
      exists i :: 0 <= i < |names| && names[i] != ""
  }

  /**
   * `Router` (router.go:29-83). `decode` stands for `json.Unmarshal` of the
   * body and `marshal` for `json.Marshal` of the canned error bodies. Writing
   * into a nil Go map panics, so a nil `PathParameters` is only allowed when
   * the matched route writes no parameter.
   */
  method Router<B>(req: Request, routes: seq<Route<B>>, decode: string -> B, marshal: map<string, string> -> Option<string>)
    returns (r: Http.Response)
    requires req.pathParameters == null ==> !WritesParams(routes, NormalizePath(req.path))
    modifies req.pathParameters
    ensures var path := NormalizePath(req.path);
      match FirstMatch(routes, path)
      case None =>
        && r.headers != null && fresh(r.headers)
        && r.headers.entries == map[Http.ContentType := Http.JsonMediaType]
        && Http.Prepared(r, 404, marshal(Http.Responses[404]))
        && (req.pathParameters != null ==> req.pathParameters.entries == old(req.pathParameters.entries))
      case Some(f) =>
        var config := routes[f.index].config;
        var names := HoleNames(RoutePattern(routes[f.index].template));
        && (req.pathParameters != null ==>
              req.pathParameters.entries == WriteParams(old(req.pathParameters.entries), names, f.captures))
        && (req.httpMethod !in config.methods ==>
              && r.headers != null && fresh(r.headers)
              && r.headers.entries == map[Http.ContentType := Http.JsonMediaType]
              && Http.Prepared(r, 405, marshal(Http.Responses[405])))
        && (req.httpMethod in config.methods ==>
              r == config.methods[req.httpMethod].callback(
                if req.pathParameters == null then map[] else req.pathParameters.entries,
                AdditionalInfo(req.queryStringParameters, decode(req.body))))
  {
    var pathParams := req.pathParameters;
    var addInfo := AdditionalInfo(req.queryStringParameters, decode(req.body));
    var pathname := NormalizePath(req.path);
    var httpMethod := req.httpMethod;

    var requestedRoute, routeExists := SearchRoutes(routes, pathname, pathParams);

    if !routeExists {
      r := Http.PrepareResponse(404, null, Http.Responses[404], marshal);
      return;
    }
    if httpMethod !in requestedRoute.methods {
      r := Http.PrepareResponse(405, null, Http.Responses[405], marshal);
      return;
    }
    var params := if pathParams == null then map[] else pathParams.entries;
    r := requestedRoute.methods[httpMethod].callback(params, addInfo);
  }

  /**
   * The search loop of router.go:46-71: stops at the first route whose
   * pattern matches and writes that route's named captures into `pathParams`.
   */
  method SearchRoutes<B>(routes: seq<Route<B>>, pathname: string, pathParams: Http.StringMap?)
    returns (requestedRoute: RouteConfig<B>, routeExists: bool)
    requires pathParams == null ==> !WritesParams(routes, pathname)
    modifies pathParams
    ensures match FirstMatch(routes, pathname)
      case None =>
        && !routeExists
        && (pathParams != null ==> pathParams.entries == old(pathParams.entries))
      case Some(f) =>
        && routeExists && requestedRoute == routes[f.index].config
        && (pathParams != null ==>
              pathParams.entries == WriteParams(old(pathParams.entries), HoleNames(RoutePattern(routes[f.index].template)), f.captures))
  {
    requestedRoute := RouteConfig(map[]);
    routeExists := false;
    for i := 0 to |routes|
      invariant FirstMatch(routes, pathname) == FirstSomeFrom(Matches(routes, pathname), i)
      invariant pathParams != null ==> pathParams.entries == old(pathParams.entries)
    {
      var matches := RouteMatch(routes[i], pathname);
      if matches.Some? {
        requestedRoute := routes[i].config;
        routeExists := true;
        if pathParams != null {
          WriteCaptures(pathParams, HoleNames(RoutePattern(routes[i].template)), matches.value);
        }
        return;
      }
    }
  }
}
