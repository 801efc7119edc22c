/**
 * The hash router of js/router.js: the path and parameters read from the
 * location hash, the route table filled by `registerRoute`, the resolution
 * of a path to a handler (exact routes first, then the first matching
 * `:param` pattern in registration order, then `/`), and the bottom
 * navigation highlight. Handlers are named by the screen they render.
 */
module Router {
  import opened Wrappers
  import opened Strings
  import Dicts

  /** A route handler, named by the screen it renders. */
  type Handler = string

  // ------------------------------------------------------------ the hash

  /** `getCurrentPath()` for `window.location.hash == hash`: drop the '#', default to '/', cut at the first '?'. */
  function CurrentPath(hash: string): (path: string)
    ensures '?' !in path
  {
    var h := if |hash| > 0 then hash[1..] else "";
    var p := if h == "" then "/" else h;
    var parts := Split(p, '?');
    assert forall j :: 0 <= j < |parts[0]| ==> parts[0][j] != '?';
    parts[0]
  }

  /** `navigate(path)` sets the hash to `#path`. */
  function HashOf(path: string): string {
    "#" + path
  }

  /**
   * Navigating to a path reads the same path back, with or without a query
   * string after it; an empty hash reads as '/'.
   */
  lemma CurrentPathOfNavigate(path: string, query: string)
    requires |path| > 0 && '?' !in path
    ensures CurrentPath(HashOf(path)) == path
    ensures CurrentPath(HashOf(path + "?" + query)) == path
    ensures CurrentPath("") == "/" && CurrentPath("#") == "/"
  {
    assert HashOf(path)[1..] == path;
    SplitFree(path, '?');
    var withQuery := path + "?" + query;
    assert HashOf(withQuery)[1..] == withQuery;
    assert withQuery == path + (['?'] + query);
    SplitPrefix(path, '?', query);
    SplitFree("/", '?');
  }

  /** `parts.filter(Boolean)`: the non-empty strings, in order. */
  function NonEmptyParts(parts: seq<string>): (r: seq<string>)
    ensures |r| <= |parts|
    ensures forall i :: 0 <= i < |r| ==> |r[i]| > 0
    ensures forall x :: x in r ==> x in parts
  {
    if |parts| == 0 then []
    else if |parts[0]| == 0 then NonEmptyParts(parts[1..])
    else [parts[0]] + NonEmptyParts(parts[1..])
  }

  lemma {:induction false} NonEmptyPartsKeeps(parts: seq<string>)
    requires forall i :: 0 <= i < |parts| ==> |parts[i]| > 0
    ensures NonEmptyParts(parts) == parts
  {
    if |parts| > 0 {
      NonEmptyPartsKeeps(parts[1..]);
    }
  }

  /** `getRouteParams()`: the non-empty '/'-separated segments of the current path. */
  function RouteParams(hash: string): (r: seq<string>)
    ensures forall i :: 0 <= i < |r| ==> |r[i]| > 0 && '/' !in r[i]
  {
    var parts := Split(CurrentPath(hash), '/');
    var r := NonEmptyParts(parts);
    forall i | 0 <= i < |r|
      ensures '/' !in r[i]
    {
      assert r[i] in parts;
      var k :| 0 <= k < |parts| && parts[k] == r[i];
      assert forall j :: 0 <= j < |parts[k]| ==> parts[k][j] != '/';
    }
    r
  }

  /** The segments of a path `/s1/s2/...` built by `navigate` are read back as they were. */
  lemma RouteParamsOfPath(segs: seq<string>)
    requires |segs| >= 1
    requires forall i :: 0 <= i < |segs| ==> |segs[i]| > 0 && '/' !in segs[i]
    requires '?' !in "/" + Join(segs, "/")
    ensures RouteParams(HashOf("/" + Join(segs, "/"))) == segs
  {
    var path := "/" + Join(segs, "/");
    CurrentPathOfNavigate(path, "");
    assert Join([""] + segs, "/") == path by {
      assert ([""] + segs)[1..] == segs;
    }
    forall i, j | 0 <= i < |[""] + segs| && 0 <= j < |([""] + segs)[i]|
      ensures ([""] + segs)[i][j] != '/'
    {
      assert ([""] + segs)[i] == segs[i - 1];
    }
    SplitJoin([""] + segs, '/');
    NonEmptyPartsKeeps(segs);
    assert ([""] + segs)[1..] == segs;
  }

  // ------------------------------------------------------- pattern matching

  /** A `:name` segment of a route pattern. */
  predicate IsParam(seg: string) {
    StartsWith(seg, ":")
  }

  /** Every literal segment of the pattern equals the path's segment at that place. */
  predicate SegmentsMatch(routeParts: seq<string>, pathParts: seq<string>) {
    && |routeParts| == |pathParts|
    && forall i :: 0 <= i < |routeParts| && !IsParam(routeParts[i]) ==> routeParts[i] == pathParts[i]
  }

  /** `extractedParams` after the first `n` segments: each `:name` bound to its path segment, later ones winning. */
  function Captures(routeParts: seq<string>, pathParts: seq<string>, n: nat): Dicts.Dict<string>
    requires n <= |routeParts| <= |pathParts|
  {
    if n == 0 then []
    else
      var acc := Captures(routeParts, pathParts, n - 1);
      if IsParam(routeParts[n - 1]) then Dicts.Set(acc, routeParts[n - 1][1..], pathParts[n - 1]) else acc
  }

  /** One more segment binds `name` only when it is `:name`, and then to its path segment. */
  lemma CapturesStep(routeParts: seq<string>, pathParts: seq<string>, n: nat, name: string)
    requires 0 < n <= |routeParts| <= |pathParts|
    ensures Dicts.Get(Captures(routeParts, pathParts, n), name)
         == if routeParts[n - 1] == ":" + name then Some(pathParts[n - 1])
            else Dicts.Get(Captures(routeParts, pathParts, n - 1), name)
  {
    var seg := routeParts[n - 1];
    var acc := Captures(routeParts, pathParts, n - 1);
    if IsParam(seg) {
      assert seg == ":" + seg[1..];
      Dicts.GetSet(acc, seg[1..], pathParts[n - 1], name);
    } else {
      assert seg != ":" + name by {
        assert (":" + name)[..1] == ":";
      }
    }
  }

  /**
   * A name is bound exactly when some `:name` segment carries it, and it is
   * bound to the path segment under the last such one.
   */
  lemma {:induction false} CapturesMeaning(routeParts: seq<string>, pathParts: seq<string>, n: nat, name: string)
    requires n <= |routeParts| <= |pathParts|
    ensures var v := Dicts.Get(Captures(routeParts, pathParts, n), name);
      && (v.None? <==> forall i :: 0 <= i < n ==> routeParts[i] != ":" + name)
      && (v.Some? ==> exists i :: 0 <= i < n && routeParts[i] == ":" + name && v.value == pathParts[i]
                        && forall j :: i < j < n ==> routeParts[j] != ":" + name)
  {
    if n > 0 {
      CapturesMeaning(routeParts, pathParts, n - 1, name);
      CapturesStep(routeParts, pathParts, n, name);
      var v := Dicts.Get(Captures(routeParts, pathParts, n), name);
      if routeParts[n - 1] == ":" + name {
        assert v == Some(pathParts[n - 1]);
      } else {
        assert v == Dicts.Get(Captures(routeParts, pathParts, n - 1), name);
      }
    }
  }

  /** The matching loop of `handleRoute` for one pattern of the same length as the path. */
  method MatchSegments(routeParts: seq<string>, pathParts: seq<string>) returns (matched: bool, params: Dicts.Dict<string>)
    requires |routeParts| == |pathParts|
    ensures matched <==> SegmentsMatch(routeParts, pathParts)
    ensures matched ==> params == Captures(routeParts, pathParts, |routeParts|)
  {
    matched := true;
    params := [];
    var i := 0;
    while i < |routeParts|
      invariant 0 <= i <= |routeParts|
      invariant matched
      invariant params == Captures(routeParts, pathParts, i)
      invariant forall k :: 0 <= k < i && !IsParam(routeParts[k]) ==> routeParts[k] == pathParts[k]
    {
      if StartsWith(routeParts[i], ":") {
        params := Dicts.Set(params, routeParts[i][1..], pathParts[i]);
      } else if routeParts[i] != pathParts[i] {
        matched := false;
        break;
      }
      i := i + 1;
    }
  }

  // ------------------------------------------------------------ resolution

  /** The route `pattern` matches `path`: it has a ':' and its segments match the path's. */
  predicate PatternMatches(pattern: string, path: string) {
    Contains(pattern, ":") && SegmentsMatch(Split(pattern, '/'), Split(path, '/'))
  }

  /** The first parameterised route (in registration order) that matches, with its captures. */
  function FirstPatternMatch(routes: Dicts.Dict<Handler>, path: string): Option<(Handler, Dicts.Dict<string>)> {
    if |routes| == 0 then None
    else if PatternMatches(routes[0].0, path) then
      var rs := Split(routes[0].0, '/');
      Some((routes[0].1, Captures(rs, Split(path, '/'), |rs|)))
    else FirstPatternMatch(routes[1..], path)
  }

  /** The handler a path resolves to (`None`: the built-in "Page not found"), and the parameters it is given. */
  datatype Resolution = Resolution(handler: Option<Handler>, params: Dicts.Dict<string>)

  /** The resolution `handleRoute` computes for `path` against the table. */
  function Resolve(routes: Dicts.Dict<Handler>, path: string): Resolution {
    match Dicts.Get(routes, path)
    case Some(h) => Resolution(Some(h), [])
    case None =>
      match FirstPatternMatch(routes, path)
      case Some(m) => Resolution(Some(m.0), m.1)
      case None => Resolution(Dicts.Get(routes, "/"), [])
  }

  lemma {:induction false} FirstPatternMatchMeaning(routes: Dicts.Dict<Handler>, path: string)
    ensures var m := FirstPatternMatch(routes, path);
      && (m.None? <==> forall i :: 0 <= i < |routes| ==> !PatternMatches(routes[i].0, path))
      && (m.Some? ==>
            exists i :: 0 <= i < |routes| && PatternMatches(routes[i].0, path)
              && m.value.0 == routes[i].1
              && m.value.1 == Captures(Split(routes[i].0, '/'), Split(path, '/'), |Split(routes[i].0, '/')|)
              && forall j :: 0 <= j < i ==> !PatternMatches(routes[j].0, path))
  {
    if |routes| > 0 && !PatternMatches(routes[0].0, path) {
      FirstPatternMatchMeaning(routes[1..], path);
      var m := FirstPatternMatch(routes, path);
      if m.Some? {
        var i :| 0 <= i < |routes[1..]| && PatternMatches(routes[1..][i].0, path)
            && m.value.0 == routes[1..][i].1
            && m.value.1 == Captures(Split(routes[1..][i].0, '/'), Split(path, '/'), |Split(routes[1..][i].0, '/')|)
            && forall j :: 0 <= j < i ==> !PatternMatches(routes[1..][j].0, path);
        assert routes[i + 1] == routes[1..][i];
        forall j | 0 <= j < i + 1
          ensures !PatternMatches(routes[j].0, path)
        {
          if j > 0 {
            assert routes[j] == routes[1..][j - 1];
          }
        }
      } else {
        forall i | 0 <= i < |routes|
          ensures !PatternMatches(routes[i].0, path)
        {
          if i > 0 {
            assert routes[i] == routes[1..][i - 1];
          }
        }
      }
    }
  }

  /**
   * A registered path is served by its own handler with no parameters;
   * otherwise the first pattern in registration order that matches serves
   * it with its captures; otherwise the '/' handler (or the built-in page
   * when there is none) serves it.
   */
  lemma ResolveMeaning(routes: Dicts.Dict<Handler>, path: string)
    ensures var r := Resolve(routes, path);
      && (Dicts.Get(routes, path).Some? ==> r == Resolution(Dicts.Get(routes, path), []))
      && ((Dicts.Get(routes, path).None? && forall i :: 0 <= i < |routes| ==> !PatternMatches(routes[i].0, path))
            ==> r == Resolution(Dicts.Get(routes, "/"), []))
      && (Dicts.Get(routes, path).None? && r.handler != Dicts.Get(routes, "/") ==>
            exists i :: 0 <= i < |routes| && PatternMatches(routes[i].0, path) && r.handler == Some(routes[i].1)
              && forall j :: 0 <= j < i ==> !PatternMatches(routes[j].0, path))
  {
    FirstPatternMatchMeaning(routes, path);
  }

  // ------------------------------------------------------- the route table

  /** The module-level `routes` table and the last path shown. */
  class RouteTable {
    var routes: Dicts.Dict<Handler>
    var currentScreen: Option<string>

    constructor()
      ensures routes == [] && currentScreen == None
    {
      routes := [];
      currentScreen := None;
    }

    /** `registerRoute(path, handler)`: `routes[path] = handler`. */
    method RegisterRoute(path: string, handler: Handler)
      modifies this
      ensures routes == Dicts.Set(old(routes), path, handler)
      ensures Dicts.Get(routes, path) == Some(handler)
      ensures currentScreen == old(currentScreen)
    {
      Dicts.GetSet(routes, path, handler, path);
      routes := Dicts.Set(routes, path, handler);
    }

    /** `handleRoute()` for the hash `hash`: picks the handler and parameters, and records the path shown. */
    method HandleRoute(hash: string) returns (r: Resolution)
      modifies this
      ensures r == Resolve(routes, CurrentPath(hash))
      ensures routes == old(routes) && currentScreen == Some(CurrentPath(hash))
    {
      var path := CurrentPath(hash);
      var handler: Option<Handler> := None;
      var params: Dicts.Dict<string> := [];
      var exact := Dicts.Get(routes, path);
      if exact.Some? {
        handler := exact;
      } else {
        var i := 0;
        while i < |routes|
          invariant 0 <= i <= |routes|
          invariant handler.None? && params == []
          invariant routes == old(routes)
          invariant FirstPatternMatch(routes, path) == FirstPatternMatch(routes[i..], path)
        {
          var routePath := routes[i].0;
          var routeHandler := routes[i].1;
          assert routes[i..][1..] == routes[i + 1..];
          if Contains(routePath, ":") {
            var routeParts := Split(routePath, '/');
            var pathParts := Split(path, '/');
            if |routeParts| == |pathParts| {
              var matched, extracted := MatchSegments(routeParts, pathParts);
              if matched {
                handler := Some(routeHandler);
                params := extracted;
                assert FirstPatternMatch(routes, path) == Some((routeHandler, extracted));
                break;
              }
            }
          }
          i := i + 1;
        }
        assert handler.None? ==> routes[i..] == [];
      }
      if handler.None? {
        assert FirstPatternMatch(routes, path).None?;
        handler := Dicts.Get(routes, "/");
      }
      currentScreen := Some(path);
      r := Resolution(handler, params);
    }
  }

  // ---------------------------------------------------------- navigation bar

  /** The four items of the bottom navigation bar. */
  datatype NavItem = HomeNav | InsanityNav | StrongliftsNav | SettingsNav

  /** `updateNavState(path)`: whether `item` is highlighted for `path`. */
  predicate NavActive(item: NavItem, path: string) {
    match item
    case HomeNav => path == "/" || StartsWith(path, "/day/")
    case InsanityNav => Contains(path, "insanity")
    case StrongliftsNav => Contains(path, "stronglifts") || Contains(path, "workout")
    case SettingsNav => Contains(path, "settings")
  }

  // ------------------------------------------------------- the app's routes

  /** `s.includes(c)` for a one-character string is membership of the character. */
  lemma {:induction false} ContainsChar(s: string, c: char)
    ensures Contains(s, [c]) <==> c in s
  {
    if |s| > 0 {
      ContainsChar(s[1..], c);
      assert s == [s[0]] + s[1..];
    }
  }

  /** A path of two segments splits into its segments after the leading empty one. */
  lemma SplitTwo(a: string, b: string)
    requires '/' !in a && '/' !in b
    ensures Split("/" + a + "/" + b, '/') == ["", a, b]
  {
    SplitFree(b, '/');
    SplitPrefix(a, '/', b);
    assert a + "/" + b == a + (['/'] + b);
    SplitPrefix("", '/', a + "/" + b);
    assert "/" + a + "/" + b == "" + (['/'] + (a + "/" + b));
  }

  /** A two-segment pattern `/lit/:name` against a two-segment path `/a/b`. */
  lemma PatternTwo(lit: string, name: string, a: string, b: string)
    requires '/' !in lit && '/' !in name && '/' !in a && '/' !in b && (|lit| == 0 || lit[0] != ':')
    ensures Split("/" + lit + "/:" + name, '/') == ["", lit, ":" + name]
    ensures Split("/" + a + "/" + b, '/') == ["", a, b]
    ensures PatternMatches("/" + lit + "/:" + name, "/" + a + "/" + b) <==> lit == a
  {
    PatternTwoShape(lit, name);
    SplitTwo(a, b);
    SegmentsTwo(lit, name, a, b);
  }

  lemma PatternTwoShape(lit: string, name: string)
    requires '/' !in lit && '/' !in name
    ensures Split("/" + lit + "/:" + name, '/') == ["", lit, ":" + name]
    ensures Contains("/" + lit + "/:" + name, ":")
  {
    var pattern := "/" + lit + "/:" + name;
    assert pattern == "/" + lit + "/" + (":" + name);
    SplitTwo(lit, ":" + name);
    ContainsChar(pattern, ':');
    assert pattern[|lit| + 2] == ':';
  }

  lemma SegmentsTwo(lit: string, name: string, a: string, b: string)
    requires |lit| == 0 || lit[0] != ':'
    ensures SegmentsMatch(["", lit, ":" + name], ["", a, b]) <==> lit == a
  {
    var rs: seq<string> := ["", lit, ":" + name];
    var ps: seq<string> := ["", a, b];
    assert !IsParam(rs[0]) && !IsParam(rs[1]) && IsParam(rs[2]);
    if lit == a {
      forall i | 0 <= i < 3 && !IsParam(rs[i])
        ensures rs[i] == ps[i]
      {
      }
    }
  }

  lemma CapturesOne(lit: string, name: string, a: string, b: string)
    requires |lit| == 0 || lit[0] != ':'
    ensures Captures(["", lit, ":" + name], ["", a, b], 3) == [(name, b)]
  {
    var rs: seq<string> := ["", lit, ":" + name];
    var ps: seq<string> := ["", a, b];
    assert !IsParam(rs[0]) && !IsParam(rs[1]) && IsParam(rs[2]) && rs[2][1..] == name;
    assert Captures(rs, ps, 0) == [];
    assert Captures(rs, ps, 1) == [];
    assert Captures(rs, ps, 2) == [];
    assert Captures(rs, ps, 3) == Dicts.Set([], name, b);
  }

  /** A route without ':' is matched only exactly, never as a pattern. */
  lemma NoColonNoPattern(pattern: string, path: string)
    requires ':' !in pattern
    ensures !PatternMatches(pattern, path)
  {
    ContainsChar(pattern, ':');
  }

  /** The root path highlights the home item and no other. */
  lemma NavOfRoot(item: NavItem)
    ensures NavActive(item, "/") <==> item == HomeNav
  {
    ContainsNeedsFirstChar("/", "insanity");
    ContainsNeedsFirstChar("/", "stronglifts");
    ContainsNeedsFirstChar("/", "workout");
    ContainsNeedsFirstChar("/", "settings");
  }

  /**
   * A start-workout path `/workout/<t>` highlights the StrongLifts item and
   * no other, whenever `t` holds no 'i' and no 's' (the types "A" and "B").
   */
  lemma NavOfWorkout(item: NavItem, t: string)
    requires 'i' !in t && 's' !in t
    ensures NavActive(item, "/workout/" + t) <==> item == StrongliftsNav
  {
    var path := "/workout/" + t;
    assert path[1..][..7] == "workout";
    assert Contains(path[1..], "workout");
    assert Contains(path, "workout");
    assert path != "/" && !StartsWith(path, "/day/") by {
      assert path[1] == 'w' && path[..5][1] != "/day/"[1];
    }
    assert 'i' !in path && 's' !in path by {
      forall j | 0 <= j < |path|
        ensures path[j] != 'i' && path[j] != 's'
      {
        if j >= 9 { assert path[j] == t[j - 9]; }
      }
    }
    ContainsNeedsFirstChar(path, "insanity");
    ContainsNeedsFirstChar(path, "settings");
  }

  /**
   * A day view `/day/<key>` for a date key (digits and dashes) highlights
   * the home item and no other.
   */
  lemma NavOfDay(item: NavItem, key: string)
    requires forall j :: 0 <= j < |key| ==> IsDigit(key[j]) || key[j] == '-'
    ensures NavActive(item, "/day/" + key) <==> item == HomeNav
  {
    var path := "/day/" + key;
    assert path[..5] == "/day/";
    assert 'i' !in path && 's' !in path && 'w' !in path by {
      forall j | 0 <= j < |path|
        ensures path[j] != 'i' && path[j] != 's' && path[j] != 'w'
      {
        if j >= 5 { assert path[j] == key[j - 5]; }
      }
    }
    ContainsNeedsFirstChar(path, "insanity");
    ContainsNeedsFirstChar(path, "stronglifts");
    ContainsNeedsFirstChar(path, "workout");
    ContainsNeedsFirstChar(path, "settings");
  }
}
