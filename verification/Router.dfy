/** Routes and scopes (Router.h, Router.cpp). */
module Router {
  import opened Text
  import opened Http
  import opened Auth
  import opened ProxyLaws

  /** The settings the request path reads (Config.h). */
  datatype Config = Config(
    jwtSecret: string, jwtIssuer: string, maxBodyBytes: int, maxClients: int, rateLimitPerMin: int,
    upstreams: map<string, string>)
  {
    /** Three areas share the tests module unless they have their own. */
    function UpstreamFor(area: string): string {
      if area in upstreams && upstreams[area] != "" then upstreams[area]
      else if (area == "quests" || area == "attempts" || area == "answers") && "tests" in upstreams then
        upstreams["tests"]
      else ""
    }
  }

  const AREAS: seq<string> := ["users", "courses", "quests", "tests", "attempts", "answers"]

  predicate IsApiArea(area: string) { area in AREAS }

  /** The area's name in the older permission vocabulary. */
  function Singular(area: string): string {
    if area == "courses" then "course"
    else if area == "quests" then "quest"
    else if area == "tests" then "test"
    else if area == "attempts" then "attempt"
    else if area == "answers" then "answer"
    else "user"
  }

  function GranularPrefix(area: string): string { Singular(area) + ":" }

  predicate IsReadMethod(m: string) { m == "GET" || m == "HEAD" }

  predicate IsAllowedMethod(m: string) {
    m == "GET" || m == "POST" || m == "PUT" || m == "PATCH" || m == "DELETE"
  }

  datatype RouteResult =
    | Health
    | NotFound
    | MethodNotAllowed
    | Api(area: string, upstreamBase: string, forwardPath: string, requiredScope: string)

  function RequiredScope(verb: string, area: string): string {
    area + (if IsReadMethod(verb) then ":read" else ":write")
  }

  /** "<area>" or "<area>/...", split at the first '/'; the rest of the path is at least "/". */
  function AreaOf(rest: string): string {
    match Find(rest, "/", 0)
    case None => rest
    case Some(slash) => rest[..slash]
  }

  function RemainderOf(rest: string): string {
    match Find(rest, "/", 0)
    case None => "/"
    case Some(slash) => rest[slash..]
  }

  /** The query of a target with its '?', empty when there is none. */
  function QueryPart(target: string): string {
    match Find(target, "?", 0)
    case None => ""
    case Some(q) => target[q..]
  }

  function MatchRoute(verb: string, target: string, cfg: Config): RouteResult {
    var path := PathOf(target);
    if path == "/health" || path == "/health/" then Health
    else if !("/api/" <= path) then NotFound
    else
      var area := AreaOf(path[5..]);
      if !IsApiArea(area) then NotFound
      else if !IsAllowedMethod(verb) then MethodNotAllowed
      else Api(area, cfg.UpstreamFor(area), RemainderOf(path[5..]) + QueryPart(target), RequiredScope(verb, area))
  }

  predicate HasScope(auth: AuthInfo, area: string, required: string) {
    || "admin" in auth.roles
    || required in auth.permissions
    || exists i :: 0 <= i < |auth.permissions| && GranularPrefix(area) <= auth.permissions[i]
  }

  // --------------------------------------------------- routing loses nothing

  /** What may follow an area's name: nothing, a path or a query. */
  ghost predicate AfterArea(suffix: string) {
    suffix == "" || suffix[0] == '/' || suffix[0] == '?'
  }

  /** The path forwarded for a suffix: itself, with the one '/' it may lack. */
  function Forwarded(suffix: string): string {
    if suffix != "" && suffix[0] == '/' then suffix else "/" + suffix
  }

  lemma AreaNames(area: string)
    requires IsApiArea(area)
    ensures '/' !in area && '?' !in area && ':' !in area
  {
    assert area == "users" || area == "courses" || area == "quests"
           || area == "tests" || area == "attempts" || area == "answers";
  }

  /** The path and query of "/api/", an area and what follows it. */
  lemma ApiTargetSplits(area: string, suffix: string)
    requires '?' !in area
    ensures var target := "/api/" + area + suffix;
            var pathRest := PathOf(suffix);
            PathOf(target) == "/api/" + area + pathRest && target == PathOf(target) + suffix[|pathRest|..]
  {
    hide PathOf, QueryOf;
    PathOfSplit(suffix);
    var target := "/api/" + area + suffix;
    PathOfIs("/api/" + area + PathOf(suffix), QueryOf(suffix));
    if PathOf(suffix) != suffix {
      assert target == ("/api/" + area + PathOf(suffix)) + "?" + QueryOf(suffix);
    }
  }

  lemma NotHealth(area: string, more: string)
    ensures var path := "/api/" + area + more;
            path != "/health" && path != "/health/" && "/api/" <= path && path[5..] == area + more
  {
    var path := "/api/" + area + more;
    assert path[1] == 'a' && "/health"[1] == 'h' && "/health/"[1] == 'h';
  }

  lemma AreaReads(area: string, more: string)
    requires '/' !in area && (more == "" || more[0] == '/')
    ensures AreaOf(area + more) == area
    ensures RemainderOf(area + more) == if more == "" then "/" else more
  {
    if more == "" {
      assert area + more == area;
      FindChar(area, '/');
    } else {
      assert area + more == area + ['/'] + more[1..];
      FindCharAfter(area, '/', more[1..]);
      assert (area + more)[..|area|] == area && (area + more)[|area|..] == more;
    }
  }

  lemma QueryPartOf(target: string)
    ensures target == PathOf(target) + QueryPart(target)
    ensures QueryPart(target) == "" || QueryPart(target)[0] == '?'
  {
    FindChar(target, '?');
  }

  /** Every target that names an area is routed to it with what follows the name. */
  lemma RouteOfArea(verb: string, area: string, suffix: string, cfg: Config)
    requires IsApiArea(area) && AfterArea(suffix)
    ensures MatchRoute(verb, "/api/" + area + suffix, cfg) ==
            if IsAllowedMethod(verb)
            then Api(area, cfg.UpstreamFor(area), Forwarded(suffix), RequiredScope(verb, area))
            else MethodNotAllowed
  {
    hide IsApiArea, IsAllowedMethod, RequiredScope, Config.UpstreamFor, Find, PathOf, QueryPart, AreaOf, RemainderOf;
    AreaNames(area);
    var target := "/api/" + area + suffix;
    var more := PathOf(suffix);
    ApiTargetSplits(area, suffix);
    PathOfSplit(suffix);
    QueryPartOf(target);
    NotHealth(area, more);
    AreaReads(area, more);
    SameRest("/api/" + area + more, QueryPart(target), suffix[|more|..]);
    assert suffix == more + suffix[|more|..];
    if more == "" {
      assert suffix[|more|..] == suffix;
    }
  }

  lemma SameRest(a: string, b: string, c: string)
    requires a + b == a + c
    ensures b == c
  {
    assert b == (a + b)[|a|..] && c == (a + c)[|a|..];
  }

  /** A request is routed to an area only when its target names that area. */
  lemma RoutedTargetNamesArea(verb: string, target: string, cfg: Config) returns (suffix: string)
    requires MatchRoute(verb, target, cfg).Api?
    ensures var r := MatchRoute(verb, target, cfg);
            && IsApiArea(r.area) && IsAllowedMethod(verb) && AfterArea(suffix)
            && target == "/api/" + r.area + suffix && r.forwardPath == Forwarded(suffix)
            && r.upstreamBase == cfg.UpstreamFor(r.area) && r.requiredScope == RequiredScope(verb, r.area)
  {
    hide IsApiArea, IsAllowedMethod, RequiredScope, Config.UpstreamFor, Find, PathOf, QueryPart, AreaOf, RemainderOf;
    var path, query := PathOf(target), QueryPart(target);
    QueryPartOf(target);
    var more := RestOfArea(path[5..]);
    suffix := more + query;
    assert path == "/api/" + path[5..];
  }

  /** The three answers that are not an area's: health for its two paths under any method and query,
      not found for everything that neither is one of them nor names an area. */
  lemma OtherRoutes(verb: string, target: string, cfg: Config)
    ensures MatchRoute(verb, target, cfg).Health? <==> PathOf(target) == "/health" || PathOf(target) == "/health/"
    ensures MatchRoute(verb, target, cfg).NotFound? <==>
            && PathOf(target) != "/health" && PathOf(target) != "/health/"
            && !exists area, suffix :: IsApiArea(area) && AfterArea(suffix) && target == "/api/" + area + suffix
  {
    hide IsApiArea, IsAllowedMethod, RequiredScope, Config.UpstreamFor, Find, PathOf, QueryPart, AreaOf, RemainderOf;
    var path, query := PathOf(target), QueryPart(target);
    QueryPartOf(target);
    if "/api/" <= path {
      var more := RestOfArea(path[5..]);
      assert path == "/api/" + path[5..];
      assert target == "/api/" + AreaOf(path[5..]) + (more + query);
      assert AfterArea(more + query);
    }
    forall area, suffix | IsApiArea(area) && AfterArea(suffix) && target == "/api/" + area + suffix
      ensures !MatchRoute(verb, target, cfg).NotFound?
    {
      RouteOfArea(verb, area, suffix, cfg);
    }
  }

  lemma RestOfArea(rest: string) returns (more: string)
    ensures rest == AreaOf(rest) + more && (more == "" || more[0] == '/')
    ensures RemainderOf(rest) == if more == "" then "/" else more
  {
    FindChar(rest, '/');
    more := match Find(rest, "/", 0) case None => "" case Some(slash) => rest[slash..];
  }

  /** The target is recovered from area and forwarded path, up to the one inserted '/'. */
  lemma ForwardedPathRecoversTarget(verb: string, target: string, cfg: Config)
    requires MatchRoute(verb, target, cfg).Api?
    ensures var r := MatchRoute(verb, target, cfg);
            var fp := r.forwardPath;
            && fp != "" && fp[0] == '/'
            && (target == "/api/" + r.area + fp
                || (target == "/api/" + r.area + fp[1..] && (fp == "/" || fp[1] == '?')))
  {
    hide MatchRoute;
    var suffix := RoutedTargetNamesArea(verb, target, cfg);
  }

  /** Within one area, equal forwarded paths come from targets that differ by that '/' at most. */
  lemma EqualForwardsEqualTargets(verb: string, t: string, t': string, cfg: Config)
    requires MatchRoute(verb, t, cfg).Api? && MatchRoute(verb, t', cfg) == MatchRoute(verb, t, cfg)
    ensures var r := MatchRoute(verb, t, cfg);
            t == t' || {t, t'} == {"/api/" + r.area + r.forwardPath, "/api/" + r.area + r.forwardPath[1..]}
  {
    hide MatchRoute;
    ForwardedPathRecoversTarget(verb, t, cfg);
    ForwardedPathRecoversTarget(verb, t', cfg);
  }

  /** Routing an acceptable target gives the proxy a path it can forward. */
  lemma RoutedPathForwardable(verb: string, target: string, cfg: Config)
    requires IsWord(target) && NoDots(PathOf(target))
    requires MatchRoute(verb, target, cfg).Api?
    ensures Forwardable(MatchRoute(verb, target, cfg).forwardPath)
  {
    hide MatchRoute, PathOf, QueryOf, IsApiArea;
    var suffix := RoutedTargetNamesArea(verb, target, cfg);
    var area, fp := MatchRoute(verb, target, cfg).area, Forwarded(suffix);
    AreaNames(area);
    ApiTargetSplits(area, suffix);
    assert target[5 + |area|..] == suffix;
    NoDotsPart("/api/" + area, PathOf(suffix));
    PathOfSplit(suffix);
    if fp == suffix {
    } else {
      PathOfIs("/" + PathOf(suffix), QueryOf(suffix));
      if PathOf(suffix) != suffix { assert "/" + suffix == ("/" + PathOf(suffix)) + "?" + QueryOf(suffix); }
      assert PathOf(suffix) == "";
      NoDotsInSlash();
    }
  }

  lemma NoDotsPart(a: string, b: string)
    requires NoDots(a + b)
    ensures NoDots(b)
  {
    forall i ensures !MatchAt(b, "..", i) {
      DotsAt(b, i);
      DotsAt(a + b, |a| + i);
    }
  }

  lemma NoDotsInSlash()
    ensures NoDots("/" + "")
  {
    forall i ensures !MatchAt("/" + "", "..", i) {
      DotsAt("/" + "", i);
    }
  }

  // ------------------------------------------------------------------ scopes

  /** Permissions that speak about an area: "<area>:..." and "<singular>:...". */
  ghost predicate InVocabulary(p: string, area: string) {
    (area + ":") <= p || GranularPrefix(area) <= p
  }

  ghost predicate ScopeOf(required: string, area: string) {
    required == area + ":read" || required == area + ":write"
  }

  /** A permission names one subject: the text before its first colon. */
  lemma OneSubject(a: string, b: string, p: string)
    requires ':' !in a && ':' !in b
    requires (a + ":") <= p && (b + ":") <= p
    ensures a == b
  {
    assert p == a + [':'] + p[|a| + 1..];
    assert p == b + [':'] + p[|b| + 1..];
    FindCharAfter(a, ':', p[|a| + 1..]);
    FindCharAfter(b, ':', p[|b| + 1..]);
    assert a == p[..|a|] && b == p[..|b|];
  }

  lemma SingularNames(area: string)
    requires IsApiArea(area)
    ensures area == Singular(area) + "s" && ':' !in Singular(area)
  {
    assert area == "users" || area == "courses" || area == "quests"
           || area == "tests" || area == "attempts" || area == "answers";
  }

  /** Different areas share no subject. */
  lemma SubjectsApart(a: string, b: string)
    requires IsApiArea(a) && IsApiArea(b) && a != b
    ensures Singular(a) != Singular(b) && a != Singular(b) && Singular(a) != b
  {
    SingularNames(a);
    SingularNames(b);
    assert a != Singular(b) by { EndsInS(a, b); }
    assert b != Singular(a) by { EndsInS(b, a); }
  }

  lemma EndsInS(a: string, b: string)
    requires IsApiArea(a) && IsApiArea(b)
    ensures a != Singular(b)
  {
    SingularNames(a);
    assert a[|a| - 1] == 's';
    var s := Singular(b);
    assert s[|s| - 1] != 's';
  }

  /** No permission string speaks about two areas. */
  lemma VocabulariesApart(p: string, a: string, b: string)
    requires IsApiArea(a) && IsApiArea(b) && InVocabulary(p, a) && InVocabulary(p, b)
    ensures a == b
  {
    hide IsApiArea, Singular;
    AreaNames(a);
    AreaNames(b);
    SingularNames(a);
    SingularNames(b);
    var x := if (a + ":") <= p then a else Singular(a);
    var y := if (b + ":") <= p then b else Singular(b);
    OneSubject(x, y, p);
    if a != b { SubjectsApart(a, b); }
  }

  /** The permissions of `ps` that are in the area's vocabulary. */
  ghost function Relevant(ps: seq<string>, area: string): seq<string> {
    if ps == [] then []
    else Relevant(ps[..|ps| - 1], area) + (if InVocabulary(ps[|ps| - 1], area) then [ps[|ps| - 1]] else [])
  }

  lemma {:induction false} RelevantHas(ps: seq<string>, area: string, p: string)
    ensures p in Relevant(ps, area) <==> p in ps && InVocabulary(p, area)
  {
    hide InVocabulary;
    if ps == [] {
    } else {
      RelevantHas(ps[..|ps| - 1], area, p);
      assert ps == ps[..|ps| - 1] + [ps[|ps| - 1]];
    }
  }

  /** Without the admin role only an area's own vocabulary decides about it. */
  lemma ScopeFromOwnVocabulary(auth: AuthInfo, area: string, required: string)
    requires "admin" !in auth.roles && ScopeOf(required, area)
    ensures HasScope(auth, area, required) <==>
            HasScope(auth.(permissions := Relevant(auth.permissions, area)), area, required)
  {
    hide Singular, GranularPrefix, Relevant;
    var own := Relevant(auth.permissions, area);
    assert InVocabulary(required, area);
    forall p ensures p in own <==> p in auth.permissions && InVocabulary(p, area) {
      RelevantHas(auth.permissions, area, p);
    }
    forall i | 0 <= i < |auth.permissions| && GranularPrefix(area) <= auth.permissions[i]
      ensures exists j :: 0 <= j < |own| && GranularPrefix(area) <= own[j]
    {
      assert auth.permissions[i] in own;
    }
    forall j | 0 <= j < |own| && GranularPrefix(area) <= own[j]
      ensures exists i :: 0 <= i < |auth.permissions| && GranularPrefix(area) <= auth.permissions[i]
    {
      assert own[j] in auth.permissions;
    }
  }

  /** A permission that grants one area a scope grants no other area any scope. */
  lemma GrantsOneArea(p: string, auth: AuthInfo, a: string, sa: string, b: string, sb: string)
    requires IsApiArea(a) && IsApiArea(b) && ScopeOf(sa, a) && ScopeOf(sb, b)
    requires "admin" !in auth.roles && auth.permissions == [p]
    requires HasScope(auth, a, sa) && HasScope(auth, b, sb)
    ensures a == b
  {
    hide IsApiArea, Singular;
    assert InVocabulary(p, a) && InVocabulary(p, b);
    VocabulariesApart(p, a, b);
  }

  /** The read scope alone does not let anybody write. */
  lemma ReadDoesNotGrantWrite(auth: AuthInfo, area: string)
    requires IsApiArea(area) && "admin" !in auth.roles && auth.permissions == [area + ":read"]
    ensures !HasScope(auth, area, area + ":write")
    ensures HasScope(auth, area, area + ":read")
  {
    hide IsApiArea, Singular;
    SingularNames(area);
    var p := area + ":read";
    assert p[|area| + 1] == 'r' && (area + ":write")[|area| + 1] == 'w';
    assert p[|Singular(area)|] == 's' && GranularPrefix(area)[|Singular(area)|] == ':';
  }

  /** More permissions or roles never revoke access. */
  lemma ScopesGrow(auth: AuthInfo, more: AuthInfo, area: string, required: string)
    requires forall r :: r in auth.roles ==> r in more.roles
    requires forall p :: p in auth.permissions ==> p in more.permissions
    requires HasScope(auth, area, required)
    ensures HasScope(more, area, required)
  {
    if i :| 0 <= i < |auth.permissions| && GranularPrefix(area) <= auth.permissions[i] {
      assert auth.permissions[i] in more.permissions;
    }
  }

  // ------------------------------------------------- what a route asks for

  lemma AreaIs(area: string)
    ensures IsApiArea(area) <==> area in {"users", "courses", "quests", "tests", "attempts", "answers"}
  {
    assert AREAS[0] == "users" && AREAS[1] == "courses" && AREAS[2] == "quests";
    assert AREAS[3] == "tests" && AREAS[4] == "attempts" && AREAS[5] == "answers";
  }

  /** A permission in the older vocabulary of an area: the area's name without its last letter, a colon,
      and anything. */
  ghost predicate OldPermission(p: string, area: string) {
    |area| >= 1 && (area[..|area| - 1] + ":") <= p
  }

  /** Exactly who may read or write an area: the admin role, the area's own scope, or any permission in
      its older vocabulary. */
  lemma HasScopeIff(auth: AuthInfo, area: string, required: string)
    requires IsApiArea(area)
    ensures HasScope(auth, area, required) <==>
            || "admin" in auth.roles
            || required in auth.permissions
            || exists p :: p in auth.permissions && OldPermission(p, area)
  {
    hide IsApiArea, Singular;
    SingularNames(area);
    assert area[..|area| - 1] == Singular(area);
    forall i | 0 <= i < |auth.permissions| && GranularPrefix(area) <= auth.permissions[i]
      ensures exists p :: p in auth.permissions && OldPermission(p, area)
    {
      assert auth.permissions[i] in auth.permissions && OldPermission(auth.permissions[i], area);
    }
    forall p | p in auth.permissions && OldPermission(p, area)
      ensures exists i :: 0 <= i < |auth.permissions| && GranularPrefix(area) <= auth.permissions[i]
    {
      var i :| 0 <= i < |auth.permissions| && auth.permissions[i] == p;
      assert GranularPrefix(area) <= auth.permissions[i];
    }
  }

  /** For every target of an area and every method: which are routed, and who passes the route's own
      check. GET asks for the area's read scope, the four others for its write scope. */
  lemma RouteAsksFor(verb: string, area: string, suffix: string, cfg: Config, auth: AuthInfo)
    requires area in {"users", "courses", "quests", "tests", "attempts", "answers"} && AfterArea(suffix)
    ensures var r := MatchRoute(verb, "/api/" + area + suffix, cfg);
            && (r.Api? <==> verb in {"GET", "POST", "PUT", "PATCH", "DELETE"})
            && (!r.Api? ==> r.MethodNotAllowed?)
            && (r.Api? ==>
                  && r.area == area && r.forwardPath == Forwarded(suffix)
                  && (HasScope(auth, area, r.requiredScope) <==>
                        || "admin" in auth.roles
                        || (if verb == "GET" then area + ":read" else area + ":write") in auth.permissions
                        || exists p :: p in auth.permissions && OldPermission(p, area)))
  {
    hide HasScope, MatchRoute, IsApiArea, Forwarded, Config.UpstreamFor;
    AreaIs(area);
    RouteOfArea(verb, area, suffix, cfg);
    HasScopeIff(auth, area, RequiredScope(verb, area));
  }

  lemma OwnScopesAreNotOld(area: string, scope: string)
    requires area in {"users", "courses", "quests", "tests", "attempts", "answers"}
    ensures !OldPermission(area + ":" + scope, area)
  {
    var p := area + ":" + scope;
    AreaIs(area);
    SingularNames(area);
    assert p[|area| - 1] == 's';
    assert (area[..|area| - 1] + ":")[|area| - 1] == ':';
  }

  /** With nothing but an area's read scope one may GET there and nothing else; with nothing but its write
      scope, everything but GET. */
  lemma OneScopeGrants(verb: string, area: string, suffix: string, cfg: Config, auth: AuthInfo)
    requires area in {"users", "courses", "quests", "tests", "attempts", "answers"} && AfterArea(suffix)
    requires "admin" !in auth.roles && MatchRoute(verb, "/api/" + area + suffix, cfg).Api?
    ensures var r := MatchRoute(verb, "/api/" + area + suffix, cfg);
            && (auth.permissions == [area + ":read"] ==> (HasScope(auth, r.area, r.requiredScope) <==> verb == "GET"))
            && (auth.permissions == [area + ":write"] ==>
                  (HasScope(auth, r.area, r.requiredScope) <==> verb in {"POST", "PUT", "PATCH", "DELETE"}))
  {
    hide HasScope, MatchRoute, OldPermission;
    RouteAsksFor(verb, area, suffix, cfg, auth);
    assert area + ":" + "read" == area + ":read" && area + ":" + "write" == area + ":write";
    OwnScopesAreNotOld(area, "read");
    OwnScopesAreNotOld(area, "write");
    assert (area + ":read")[|area| + 1] == 'r' && (area + ":write")[|area| + 1] == 'w';
  }

  /** Where an area's requests go: to its own address, three areas else to that of the tests module. */
  lemma RouteGoesTo(verb: string, area: string, suffix: string, cfg: Config)
    requires area in {"users", "courses", "quests", "tests", "attempts", "answers"} && AfterArea(suffix)
    requires MatchRoute(verb, "/api/" + area + suffix, cfg).Api?
    ensures var base := MatchRoute(verb, "/api/" + area + suffix, cfg).upstreamBase;
            var own := if area in cfg.upstreams then cfg.upstreams[area] else "";
            var tests := if "tests" in cfg.upstreams then cfg.upstreams["tests"] else "";
            && (own != "" ==> base == own)
            && (own == "" && area in {"quests", "attempts", "answers"} ==> base == tests)
            && (own == "" && area in {"users", "courses", "tests"} ==> base == "")
  {
    hide MatchRoute, IsApiArea;
    AreaIs(area);
    RouteOfArea(verb, area, suffix, cfg);
    assert "quests"[0] == 'q' && "attempts"[1] == 't' && "answers"[1] == 'n';
  }
}
