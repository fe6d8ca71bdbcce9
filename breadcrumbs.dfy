/**
 * The dashboard's breadcrumb trail for a route path: an exact entry of the route
 * table when there is one, otherwise one crumb per non-empty `/`-separated segment
 * of the path, linking to the path up to that segment and titled by the segment
 * with its first letter in upper case.
 */
module Breadcrumbs {
  import opened Text

  datatype Crumb = Crumb(title: string, link: string)

  const Dashboard: Crumb := Crumb("Dashboard", "/dashboard")

  /** The custom trails, keyed by exact path. */
  const RouteMapping: map<string, seq<Crumb>> := map[
    "/dashboard" := [Dashboard],
    "/dashboard/overview" := [Dashboard, Crumb("Overview", "/dashboard/overview")],
    "/dashboard/rpp" := [Dashboard, Crumb("RPP Management", "/dashboard/rpp")],
    "/dashboard/rpp/create" := [Dashboard, Crumb("RPP Management", "/dashboard/rpp"), Crumb("Create RPP", "/dashboard/rpp/create")],
    "/dashboard/documents" := [Dashboard, Crumb("Documents", "/dashboard/documents")],
    "/dashboard/schedule" := [Dashboard, Crumb("Schedule", "/dashboard/schedule")],
    "/dashboard/analytics" := [Dashboard, Crumb("Analytics", "/dashboard/analytics")],
    "/dashboard/messages" := [Dashboard, Crumb("Messages", "/dashboard/messages")],
    "/dashboard/settings" := [Dashboard, Crumb("Settings", "/dashboard/settings")],
    "/dashboard/profile" := [Dashboard, Crumb("Settings", "/dashboard/settings"), Crumb("Profile", "/dashboard/profile")],
    "/dashboard/kanban" := [Dashboard, Crumb("Kanban Board", "/dashboard/kanban")]
  ]

  /** `segment.charAt(0).toUpperCase() + segment.slice(1)`. */
  function Capitalize(segment: string): string {
    if segment == "" then "" else [UpperChar(segment[0])] + segment[1..]
  }

  /** `pathname.split('/').filter(Boolean)`. */
  function Segments(pathname: string): seq<string> {
    SplitNonEmpty(pathname, '/')
  }

  /** `/${segments.slice(0, index + 1).join('/')}`. */
  function PrefixLink(segments: seq<string>, index: nat): string
    requires index < |segments|
  {
    "/" + Join(segments[..index + 1], '/')
  }

  /** The trail derived from the path alone. */
  function Derived(pathname: string): seq<Crumb> {
    var segments := Segments(pathname);
    seq(|segments|, i requires 0 <= i < |segments| =>
      Crumb(Capitalize(segments[i]), PrefixLink(segments, i)))
  }

  /** `useBreadcrumbs` for the current path. */
  function Breadcrumbs(pathname: string): seq<Crumb> {
    if pathname in RouteMapping then RouteMapping[pathname] else Derived(pathname)
  }

  /** A mapped path gets its table entry and nothing else. */
  lemma MappedPathUsesTable(pathname: string)
    requires pathname in RouteMapping
    ensures Breadcrumbs(pathname) == RouteMapping[pathname]
  {
  }

  /**
   * An unmapped path gets one crumb per non-empty segment; each crumb's title is
   * its segment with only the first letter changed, to upper case.
   */
  lemma UnmappedPathHasOneCrumbPerSegment(pathname: string)
    requires pathname !in RouteMapping
    ensures |Breadcrumbs(pathname)| == |Segments(pathname)|
    ensures forall i :: 0 <= i < |Segments(pathname)| ==>
      var title, segment := Breadcrumbs(pathname)[i].title, Segments(pathname)[i];
      |title| == |segment| > 0 && title[0] == UpperChar(segment[0]) && title[1..] == segment[1..]
  {
  }

  /** Each derived link extends the previous one by `/` and the next segment. */
  lemma DerivedLinksExtend(pathname: string, i: nat)
    requires 0 < i < |Derived(pathname)|
    ensures Derived(pathname)[i].link == Derived(pathname)[i - 1].link + "/" + Segments(pathname)[i]
  {
    var segments := Segments(pathname);
    assert segments[..i + 1] == segments[..i] + [segments[i]];
    JoinSnoc(segments[..i], segments[i], '/');
  }

  lemma {:induction false} JoinSnoc(parts: seq<string>, last: string, sep: char)
    requires |parts| >= 1
    ensures Join(parts + [last], sep) == Join(parts, sep) + [sep] + last
    decreases |parts|
  {
    if |parts| == 1 {
      assert parts + [last] == [parts[0]] + [last];
      JoinCons(parts[0], [last], sep);
    } else {
      assert parts + [last] == [parts[0]] + (parts[1..] + [last]);
      JoinCons(parts[0], parts[1..] + [last], sep);
      JoinSnoc(parts[1..], last, sep);
      assert parts == [parts[0]] + parts[1..];
      JoinCons(parts[0], parts[1..], sep);
    }
  }

  /** The last derived link is the path itself with its empty segments removed. */
  lemma LastDerivedLinkIsNormalisedPath(pathname: string)
    requires |Derived(pathname)| > 0
    ensures Derived(pathname)[|Derived(pathname)| - 1].link == "/" + Join(Segments(pathname), '/')
  {
    var segments := Segments(pathname);
    assert segments[..|segments|] == segments;
  }

  /** Following a derived link leads to the path made of the segments up to that crumb. */
  lemma DerivedLinkSegments(pathname: string, i: nat)
    requires i < |Derived(pathname)|
    ensures Segments(Derived(pathname)[i].link) == Segments(pathname)[..i + 1]
  {
    var prefix := Segments(pathname)[..i + 1];
    assert Separable(prefix, '/') by {
      forall j | 0 <= j < |prefix| ensures prefix[j] != "" && '/' !in prefix[j] {
        assert prefix[j] == Segments(pathname)[j];
      }
    }
    JoinThenSplitNonEmpty(prefix, '/');
    SplitNonEmptyLeadingSep(Join(prefix, '/'), '/');
    assert "/" + Join(prefix, '/') == ['/'] + Join(prefix, '/');
  }

  /** Empty segments are ignored: a doubled `/` inside an unmapped path changes nothing. */
  lemma DoubledSlashIgnored(a: string, b: string)
    requires a + "//" + b !in RouteMapping && a + "/" + b !in RouteMapping
    ensures Breadcrumbs(a + "//" + b) == Breadcrumbs(a + "/" + b)
  {
    assert a + "//" + b == a + ['/', '/'] + b;
    assert a + "/" + b == a + ['/'] + b;
    SplitNonEmptyDoubleSep(a, b, '/');
  }

  /** Empty segments are ignored: a trailing `/` on an unmapped path changes nothing. */
  lemma TrailingSlashIgnored(a: string)
    requires a + "/" !in RouteMapping && a !in RouteMapping
    ensures Breadcrumbs(a + "/") == Breadcrumbs(a)
  {
    SplitNonEmptyTrailingSep(a, '/');
  }

  /** The root path is unmapped and has no segments, so it has no crumbs. */
  lemma RootHasNoCrumbs()
    ensures Breadcrumbs("/") == []
  {
    assert "/" == [] + ['/'] + [];
    SplitConcat([], [], '/');
    assert Split("/", '/') == ["", ""];
  }

  /**
   * Every table entry starts at the dashboard crumb and ends at a crumb that links
   * to the entry's own path.
   */
  lemma RouteMappingWellFormed(pathname: string)
    requires pathname in RouteMapping
    ensures |RouteMapping[pathname]| >= 1
    ensures RouteMapping[pathname][0] == Dashboard
    ensures RouteMapping[pathname][|RouteMapping[pathname]| - 1].link == pathname
  {
  }
}
