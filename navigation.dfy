/**
 * Breadcrumb resolution for the dashboard: a path is cut into its non-empty
 * segments, each prefix of them is matched against a table of route
 * patterns (a `:`-segment matches any segment, the longest pattern wins),
 * and a prefix no pattern matches is labelled from its last segment.
 */
module Navigation {
  import opened Wrappers
  import opened Text

  /** One entry of the route table: a path pattern and its breadcrumb label. */
  datatype Route = Route(key: string, name: string)

  /** The route table, in declaration order (the order the matcher visits it). */
  const Routes: seq<Route> := [
    Route("/dashboard", "Dashboard"),
    Route("/dashboard/projects", "Projects"),
    Route("/dashboard/library", "File Library"),
    Route("/dashboard/library/:id", "Asset"),
    Route("/dashboard/studio", "Content Studio"),
    Route("/dashboard/research", "Research"),
    Route("/dashboard/research/:id", "Research Detail"),
    Route("/dashboard/planner", "Publishing Planner"),
    Route("/dashboard/inbox", "Inbox"),
    Route("/dashboard/integrations", "Integrations"),
    Route("/dashboard/analytics", "Analytics"),
    Route("/dashboard/settings", "Settings"),
    Route("/dashboard/profile", "Profile"),
    Route("/dashboard/billing", "Billing"),
    Route("/dashboard/content/:id", "Content")
  ]

  /** `path.split('/').filter(Boolean)`: the non-empty pieces between slashes. */
  function Segments(path: string): (r: seq<string>)
    ensures forall i :: 0 <= i < |r| ==> r[i] != [] && '/' !in r[i]
  {
    NonEmpty(Split(path, '/'))
  }

  /** The segments of each route's pattern, in table order. */
  function KeyTable(routes: seq<Route>): seq<seq<string>> {
    seq(|routes|, k requires 0 <= k < |routes| => Segments(routes[k].key))
  }

  /**
   * A pattern fits a path when it has no more segments than the path and
   * each of its segments equals the path's segment at the same place or
   * starts with `:`.
   */
  predicate Fits(keySegs: seq<string>, pathSegs: seq<string>) {
    && |keySegs| <= |pathSegs|
    && forall i :: 0 <= i < |keySegs| ==> keySegs[i] == pathSegs[i] || StartsWith(keySegs[i], ":")
  }

  /** The number of segments of the pick so far, 0 before any. */
  function BestLength(keys: seq<seq<string>>, best: Option<nat>): nat
    requires best.Some? ==> best.value < |keys|
  {
    if best.Some? then |keys[best.value]| else 0
  }

  /**
   * The match among the first `n` patterns (each given by its segments): the
   * fitting one with the most segments, the later one on a tie; `None` when
   * none of them fits.
   */
  function BestAmong(keys: seq<seq<string>>, n: nat, pathSegs: seq<string>): (r: Option<nat>)
    requires n <= |keys|
    ensures r.Some? ==> r.value < n && Fits(keys[r.value], pathSegs)
  {
    if n == 0 then None
    else
      var prev := BestAmong(keys, n - 1, pathSegs);
      if Fits(keys[n - 1], pathSegs) && |keys[n - 1]| >= BestLength(keys, prev)
      then Some(n - 1)
      else prev
  }

  /** The pick is at least as long as every fitting pattern among the first `n`. */
  lemma {:induction false} BestIsLongest(keys: seq<seq<string>>, n: nat, pathSegs: seq<string>)
    requires n <= |keys|
    ensures var r := BestAmong(keys, n, pathSegs);
      r.Some? ==> forall k :: 0 <= k < n && Fits(keys[k], pathSegs) ==> |keys[k]| <= |keys[r.value]|
  {
    if n > 0 {
      var prev, r := BestAmong(keys, n - 1, pathSegs), BestAmong(keys, n, pathSegs);
      BestIsLongest(keys, n - 1, pathSegs);
      BestNoneIff(keys, n - 1, pathSegs);
      if r.Some? {
        // the last pattern is picked when it is at least as long as the previous pick
        assert r == prev || (r == Some(n - 1) && |keys[n - 1]| >= BestLength(keys, prev));
        forall k | 0 <= k < n && Fits(keys[k], pathSegs) ensures |keys[k]| <= |keys[r.value]| {
          if k < n - 1 {
            assert prev.Some?;
          }
        }
      }
    }
  }

  /** On a tie the later pattern wins: every fitting pattern after the pick is strictly shorter. */
  lemma {:induction false} LaterFitsAreShorter(keys: seq<seq<string>>, n: nat, pathSegs: seq<string>)
    requires n <= |keys|
    ensures var r := BestAmong(keys, n, pathSegs);
      r.Some? ==> forall k :: r.value < k < n && Fits(keys[k], pathSegs) ==> |keys[k]| < |keys[r.value]|
  {
    if n > 0 {
      LaterFitsAreShorter(keys, n - 1, pathSegs);
    }
  }

  /** There is no pick exactly when no pattern among the first `n` fits. */
  lemma {:induction false} BestNoneIff(keys: seq<seq<string>>, n: nat, pathSegs: seq<string>)
    requires n <= |keys|
    ensures BestAmong(keys, n, pathSegs).None? <==> forall k :: 0 <= k < n ==> !Fits(keys[k], pathSegs)
  {
    if n > 0 {
      BestNoneIff(keys, n - 1, pathSegs);
    }
  }

  /** The route the matcher picks from `routes` for a path with these segments. */
  function BestMatch(routes: seq<Route>, pathSegs: seq<string>): (r: Option<nat>)
    ensures r.Some? ==> r.value < |routes|
  {
    BestAmong(KeyTable(routes), |routes|, pathSegs)
  }

  /** `matchRoute` over a route table: one pass keeping the best fit so far. */
  method MatchRoute(routes: seq<Route>, pathname: string) returns (best: Option<nat>)
    ensures best == BestMatch(routes, Segments(pathname))
  {
    var pathSegs := Segments(pathname);
    best := None;
    var bestLength := 0;
    for k := 0 to |routes|
      invariant best == BestAmong(KeyTable(routes), k, pathSegs)
      invariant bestLength == BestLength(KeyTable(routes), best)
    {
      var keySegs := Segments(routes[k].key);
      assert keySegs == KeyTable(routes)[k];
      if |keySegs| > |pathSegs| {
        continue;
      }
      if Fits(keySegs, pathSegs) && |keySegs| >= bestLength {
        best := Some(k);
        bestLength := |keySegs|;
      }
    }
  }

  // ------------------------------------------------------------ the labels

  predicate IsSlugChar(c: char) {
    ('a' <= c <= 'z') || ('A' <= c <= 'Z') || ('0' <= c <= '9') || c == '_' || c == '-'
  }

  predicate IsHexOrDash(c: char) {
    ('a' <= c <= 'f') || ('A' <= c <= 'F') || ('0' <= c <= '9') || c == '-'
  }

  /** `/^[a-f0-9-]{36}$/i` */
  predicate LooksLikeUuid(s: string) {
    |s| == 36 && forall i :: 0 <= i < |s| ==> IsHexOrDash(s[i])
  }

  /** `/^[a-zA-Z0-9_-]+$/` */
  predicate IsSlug(s: string) {
    |s| >= 1 && forall i :: 0 <= i < |s| ==> IsSlugChar(s[i])
  }

  /** `toUpperCase` on one character, for the ASCII letters. */
  function UpperCase(c: char): (r: char)
    ensures ('a' <= c <= 'z') ==> ('A' <= r <= 'Z') && r as int == c as int - 32
    ensures !('a' <= c <= 'z') ==> r == c
  {
    if 'a' <= c <= 'z' then (c as int - 32) as char else c
  }

  /** `replace(/-/g, ' ')` */
  function DashesToSpaces(s: string): (r: string)
    ensures |r| == |s|
    ensures forall i :: 0 <= i < |s| ==> r[i] == (if s[i] == '-' then ' ' else s[i])
  {
    if s == [] then [] else [if s[0] == '-' then ' ' else s[0]] + DashesToSpaces(s[1..])
  }

  /**
   * `formatSegment`: an id-like segment reads `Detail`; any other has its
   * first character upper-cased and its dashes turned into spaces.
   */
  function FormatSegment(segment: string): (r: string)
    ensures IsSlug(segment) ==> r == "Detail"
    ensures !IsSlug(segment) ==> |r| == |segment|
    ensures !IsSlug(segment) && segment != [] ==> r[0] == UpperCase(segment[0])
  {
    if LooksLikeUuid(segment) || IsSlug(segment) then "Detail"
    else if segment == [] then []
    else [UpperCase(segment[0])] + DashesToSpaces(segment[1..])
  }

  /** A UUID is also a slug, so the UUID test never decides the outcome. */
  lemma UuidIsSlug(s: string)
    requires LooksLikeUuid(s)
    ensures IsSlug(s)
  {
  }

  /**
   * A segment reads `Detail` exactly when it is a non-empty run of letters,
   * digits, `_` and `-`: no other segment formats to that word.
   */
  lemma DetailIff(segment: string)
    ensures FormatSegment(segment) == "Detail" <==> IsSlug(segment)
  {
    if !IsSlug(segment) && segment != [] {
      if LooksLikeUuid(segment) {
        UuidIsSlug(segment);
      }
      var r := FormatSegment(segment);
      var j :| 0 <= j < |segment| && !IsSlugChar(segment[j]);
      assert |r| == |segment|;
      if |r| == 6 {
        if j == 0 {
          assert r[0] == segment[0];
        } else {
          assert r[j] == DashesToSpaces(segment[1..])[j - 1] == segment[j];
        }
        assert r[j] != "Detail"[j];
      }
    }
  }

  /** A segment that is not id-like keeps its length and loses its dashes after the first character. */
  lemma FormattedWords(segment: string)
    requires segment != [] && !IsSlug(segment)
    ensures var r := FormatSegment(segment);
      && |r| == |segment| && r[0] == UpperCase(segment[0])
      && forall i :: 1 <= i < |r| ==> r[i] != '-' && (segment[i] != '-' ==> r[i] == segment[i])
  {
    if LooksLikeUuid(segment) {
      UuidIsSlug(segment);
    }
    var r := FormatSegment(segment);
    forall i | 1 <= i < |r| ensures r[i] != '-' && (segment[i] != '-' ==> r[i] == segment[i]) {
      assert r[i] == DashesToSpaces(segment[1..])[i - 1];
    }
  }

  /**
   * The label of the crumb for a prefix of the segments: the name of the
   * longest fitting route, the later one on a tie, or the last segment
   * formatted when no route fits. A matched key `""` is falsy in
   * `routeKey ? ... : ...`, so it also gives the formatted segment.
   */
  function CrumbLabel(routes: seq<Route>, prefix: seq<string>): (r: string)
    requires prefix != []
    ensures (forall k :: 0 <= k < |routes| ==> !Fits(Segments(routes[k].key), prefix))
            ==> r == FormatSegment(prefix[|prefix| - 1])
    ensures (exists k :: 0 <= k < |routes| && Fits(Segments(routes[k].key), prefix)) ==>
              exists k :: 0 <= k < |routes| && Fits(Segments(routes[k].key), prefix)
                && r == (if routes[k].key == "" then FormatSegment(prefix[|prefix| - 1]) else routes[k].name)
                && (forall j :: 0 <= j < |routes| && Fits(Segments(routes[j].key), prefix)
                      ==> |Segments(routes[j].key)| <= |Segments(routes[k].key)|)
                && (forall j :: k < j < |routes| && Fits(Segments(routes[j].key), prefix)
                      ==> |Segments(routes[j].key)| < |Segments(routes[k].key)|)
  {
    var keys := KeyTable(routes);
    BestNoneIff(keys, |routes|, prefix);
    BestIsLongest(keys, |routes|, prefix);
    LaterFitsAreShorter(keys, |routes|, prefix);
    assert forall j :: 0 <= j < |routes| ==> keys[j] == Segments(routes[j].key);
    match BestMatch(routes, prefix)
    case Some(k) => if routes[k].key == "" then FormatSegment(prefix[|prefix| - 1]) else routes[k].name
    case None => FormatSegment(prefix[|prefix| - 1])
  }

  /** Every key of the dashboard's table is non-empty, so a fitting route always gives its own name. */
  lemma DashboardKeysNonEmpty()
    ensures forall k :: 0 <= k < |Routes| ==> Routes[k].key != ""
  {
  }

  // ------------------------------------------------------------- the paths

  /** The path the loop accumulates: `/` before each segment. */
  function PathOf(segs: seq<string>): string {
    if segs == [] then "" else "/" + segs[0] + PathOf(segs[1..])
  }

  lemma {:induction false} PathOfSnoc(segs: seq<string>, s: string)
    ensures PathOf(segs + [s]) == PathOf(segs) + "/" + s
  {
    if segs == [] {
      assert [] + [s] == [s];
    } else {
      assert (segs + [s])[1..] == segs[1..] + [s];
      PathOfSnoc(segs[1..], s);
    }
  }

  /** The accumulated path is `/` followed by the segments joined with `/`. */
  lemma {:induction false} PathOfJoin(segs: seq<string>)
    requires segs != []
    ensures PathOf(segs) == "/" + Join(segs, "/")
  {
    if |segs| > 1 {
      PathOfJoin(segs[1..]);
    }
  }

  lemma {:induction false} SplitPieces(x: string, rest: seq<string>)
    requires '/' !in x
    requires forall i :: 0 <= i < |rest| ==> '/' !in rest[i]
    ensures Split(x + PathOf(rest), '/') == [x] + rest
    decreases |rest|
  {
    if rest == [] {
      assert x + PathOf(rest) == x;
      SplitNoSep(x, '/');
    } else {
      var tail := rest[0] + PathOf(rest[1..]);
      assert x + PathOf(rest) == x + ['/'] + tail;
      SplitAtFirst(x, tail, '/');
      SplitPieces(rest[0], rest[1..]);
      assert [rest[0]] + rest[1..] == rest;
    }
  }

  /** Cutting an accumulated path into segments gives back the segments it was built from. */
  lemma {:induction false} SegmentsOfPath(segs: seq<string>)
    requires forall i :: 0 <= i < |segs| ==> segs[i] != [] && '/' !in segs[i]
    ensures Segments(PathOf(segs)) == segs
  {
    if segs != [] {
      var tail := segs[0] + PathOf(segs[1..]);
      assert PathOf(segs) == [] + ['/'] + tail;
      SplitAtFirst([], tail, '/');
      SplitPieces(segs[0], segs[1..]);
      assert [segs[0]] + segs[1..] == segs;
      NonEmptyOfNonEmpty(segs);
    }
  }

  /** A slash splits the segments of a path into those before it and those after it. */
  lemma SegmentsConcat(a: string, b: string)
    ensures Segments(a + "/" + b) == Segments(a) + Segments(b)
  {
    SplitConcat(a, b, '/');
    NonEmptyAppend(Split(a, '/'), Split(b, '/'));
  }

  /** Doubled and trailing slashes add no segment. */
  lemma SlashesIgnored(a: string, b: string)
    ensures Segments(a + "/") == Segments(a)
    ensures Segments(a + "//" + b) == Segments(a + "/" + b)
  {
    SegmentsConcat(a, "");
    assert a + "/" + "" == a + "/";
    SegmentsConcat(a, "/" + b);
    assert a + "/" + ("/" + b) == a + "//" + b;
    SegmentsConcat("", b);
    assert "" + "/" + b == "/" + b;
    SegmentsConcat(a, b);
  }

  // ----------------------------------------------------------- breadcrumbs

  datatype Crumb = Crumb(name: string, path: string)

  /** The crumb for the first `i + 1` segments. */
  function CrumbAt(routes: seq<Route>, segs: seq<string>, i: nat): Crumb
    requires i < |segs|
  {
    Crumb(CrumbLabel(routes, segs[..i + 1]), PathOf(segs[..i + 1]))
  }

  /** A crumb's path joins its segments, and extends the path of the crumb before it by one segment. */
  lemma CrumbPath(routes: seq<Route>, segs: seq<string>, i: nat)
    requires i < |segs|
    ensures CrumbAt(routes, segs, i).path == "/" + Join(segs[..i + 1], "/")
    ensures i > 0 ==> CrumbAt(routes, segs, i).path == CrumbAt(routes, segs, i - 1).path + "/" + segs[i]
  {
    PathOfJoin(segs[..i + 1]);
    if i > 0 {
      assert segs[..i + 1] == segs[..i] + [segs[i]];
      PathOfSnoc(segs[..i], segs[i]);
    }
  }

  /** Extending the path of the first `i` segments by `/` and segment `i` gives the path of the first `i + 1`. */
  lemma ExtendedPath(segs: seq<string>, i: nat)
    requires i < |segs| && forall k :: 0 <= k < |segs| ==> segs[k] != [] && '/' !in segs[k]
    ensures PathOf(segs[..i]) + "/" + segs[i] == PathOf(segs[..i + 1])
    ensures Segments(PathOf(segs[..i + 1])) == segs[..i + 1]
  {
    var prefix := segs[..i + 1];
    assert prefix == segs[..i] + [segs[i]];
    PathOfSnoc(segs[..i], segs[i]);
    SegmentsOfPath(prefix);
  }

  /** The loop body: the crumb for the first `i + 1` segments, given the path of the first `i`. */
  method NextCrumb(routes: seq<Route>, segs: seq<string>, i: nat, accumulated: string) returns (crumb: Crumb)
    requires i < |segs| && forall k :: 0 <= k < |segs| ==> segs[k] != [] && '/' !in segs[k]
    requires accumulated == PathOf(segs[..i])
    ensures crumb == CrumbAt(routes, segs, i)
  {
    var path := accumulated + "/" + segs[i];
    ExtendedPath(segs, i);
    var routeKey := MatchRoute(routes, path);
    var name := if routeKey.Some? && routes[routeKey.value].key != "" then routes[routeKey.value].name
                else FormatSegment(segs[i]);
    crumb := Crumb(name, path);
  }

  /**
   * `getBreadcrumbPath`: one crumb per non-empty segment, the i-th for the
   * path of the first i + 1 segments, each path extending the one before.
   */
  method BreadcrumbPath(routes: seq<Route>, pathname: string) returns (crumbs: seq<Crumb>)
    ensures var segs := Segments(pathname);
      && |crumbs| == |segs|
      && (forall i :: 0 <= i < |segs| ==> crumbs[i].path == "/" + Join(segs[..i + 1], "/"))
      && (forall i :: 0 <= i < |segs| ==> crumbs[i].name == CrumbLabel(routes, segs[..i + 1]))
      && (forall i :: 0 < i < |segs| ==> crumbs[i].path == crumbs[i - 1].path + "/" + segs[i])
  {
    var segs := Segments(pathname);
    crumbs := [];
    var accumulated := "";
    for i := 0 to |segs|
      invariant |crumbs| == i
      invariant accumulated == PathOf(segs[..i])
      invariant forall k :: 0 <= k < i ==> crumbs[k] == CrumbAt(routes, segs, k)
    {
      var crumb := NextCrumb(routes, segs, i, accumulated);
      accumulated := crumb.path;
      AppendCrumb(routes, segs, crumbs, crumb);
      crumbs := crumbs + [crumb];
    }
    CrumbPaths(routes, segs, crumbs);
    CrumbNames(routes, segs, crumbs);
  }

  /** The crumbs of the first `i` prefixes, followed by the crumb of the next one. */
  lemma AppendCrumb(routes: seq<Route>, segs: seq<string>, crumbs: seq<Crumb>, crumb: Crumb)
    requires |crumbs| < |segs| && crumb == CrumbAt(routes, segs, |crumbs|)
    requires forall k :: 0 <= k < |crumbs| ==> crumbs[k] == CrumbAt(routes, segs, k)
    ensures forall k :: 0 <= k < |crumbs| + 1 ==> (crumbs + [crumb])[k] == CrumbAt(routes, segs, k)
  {
  }

  /** Crumbs built by `CrumbAt` carry the label of their prefix. */
  lemma CrumbNames(routes: seq<Route>, segs: seq<string>, crumbs: seq<Crumb>)
    requires |crumbs| == |segs| && forall k :: 0 <= k < |segs| ==> crumbs[k] == CrumbAt(routes, segs, k)
    ensures forall i :: 0 <= i < |segs| ==> crumbs[i].name == CrumbLabel(routes, segs[..i + 1])
  {
  }

  /** Crumbs built by `CrumbAt` have the joined paths, each extending the one before. */
  lemma CrumbPaths(routes: seq<Route>, segs: seq<string>, crumbs: seq<Crumb>)
    requires |crumbs| == |segs| && forall k :: 0 <= k < |segs| ==> crumbs[k] == CrumbAt(routes, segs, k)
    ensures forall i :: 0 <= i < |segs| ==> crumbs[i].path == "/" + Join(segs[..i + 1], "/")
    ensures forall i :: 0 < i < |segs| ==> crumbs[i].path == crumbs[i - 1].path + "/" + segs[i]
  {
    forall i | 0 <= i < |segs|
      ensures crumbs[i].path == "/" + Join(segs[..i + 1], "/")
      ensures i > 0 ==> crumbs[i].path == crumbs[i - 1].path + "/" + segs[i]
    {
      CrumbPath(routes, segs, i);
    }
  }

  /** The dashboard's breadcrumbs: `getBreadcrumbPath` over the dashboard's route table. */
  method DashboardBreadcrumbs(pathname: string) returns (crumbs: seq<Crumb>)
    ensures var segs := Segments(pathname);
      && |crumbs| == |segs|
      && (forall i :: 0 <= i < |segs| ==> crumbs[i].path == "/" + Join(segs[..i + 1], "/"))
      && (forall i :: 0 <= i < |segs| ==> crumbs[i].name == CrumbLabel(Routes, segs[..i + 1]))
      && (forall i :: 0 < i < |segs| ==> crumbs[i].path == crumbs[i - 1].path + "/" + segs[i])
  {
    crumbs := BreadcrumbPath(Routes, pathname);
  }
}
