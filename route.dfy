/**
 * The client's routes: the path each route prints as, the `/`-separated string it
 * displays as, and the parse from a URL path back to a route.
 */
module Routes {
  import opened Prelude

  datatype Route = Home | Login | Logout | Register | Profile(username: string) | GiftIdeas

  /** `Route::path`: the URL path segments of a route. */
  function Path(r: Route): (p: seq<string>)
    ensures p == [] <==> r.Home?
    ensures |p| >= 1 ==> KnownFirstSegment(p[0]) && p[0] != "" && p[0] != "home"
    ensures |p| == 2 <==> r.Profile?
    ensures r.Profile? ==> p[1] == r.username
  {
    match r
    case Home => []
    case Login => ["login"]
    case Logout => ["logout"]
    case Register => ["register"]
    case Profile(username) => ["profile", username]
    case GiftIdeas => ["gift_ideas"]
  }

  /** `segments.join("/")`. */
  function Join(segments: seq<string>): (s: string)
    ensures |segments| >= 1 ==> |segments[0]| <= |s| && s[..|segments[0]|] == segments[0]
    ensures |segments| >= 2 ==> |segments[0]| < |s| && s[|segments[0]|] == '/'
    ensures '/' in s <==> |segments| >= 2 || exists i | 0 <= i < |segments| :: '/' in segments[i]
  {
    if |segments| == 0 then ""
    else if |segments| == 1 then segments[0]
    else segments[0] + "/" + Join(segments[1..])
  }

  /** `Display for Route`: a slash, then the path segments joined by slashes. */
  function Display(r: Route): (s: string)
    ensures |s| >= 1 && s[0] == '/'
  {
    "/" + Join(Path(r))
  }

  /** `TryFrom<Url> for Route`: only the first segment, and for a profile the second, decide. */
  function TryFrom(path: seq<string>): (r: Result<Route, ()>)
    ensures r.Ok? ==> WellFormed(r.value)
    ensures r.Ok? && !r.value.Home? ==> |Path(r.value)| <= |path| && path[..|Path(r.value)|] == Path(r.value)
    ensures r.Ok? && r.value.Home? ==> |path| == 0 || path[0] == "" || path[0] == "home"
    ensures r.Err? <==> |path| > 0 && (!KnownFirstSegment(path[0]) || (path[0] == "profile" && (|path| < 2 || path[1] == "")))
  {
    if |path| == 0 then Ok(Home)
    else
      var first := path[0];
      if first == "" || first == "home" then Ok(Home)
      else if first == "login" then Ok(Login)
      else if first == "logout" then Ok(Logout)
      else if first == "register" then Ok(Register)
      else if first == "profile" then
        if |path| >= 2 && path[1] != "" then Ok(Profile(path[1])) else Err(())
      else if first == "gift_ideas" then Ok(GiftIdeas)
      else Err(())
  }

  /** The link of every route: Home is a lone slash, a profile is "/profile/" and the username. */
  lemma DisplayForms(username: string)
    ensures Display(Home) == "/"
    ensures Display(Login) == "/login"
    ensures Display(Logout) == "/logout"
    ensures Display(Register) == "/register"
    ensures Display(Profile(username)) == "/profile/" + username
    ensures Display(GiftIdeas) == "/gift_ideas"
  {
    assert Join(["profile", username]) == "profile" + "/" + Join([username]);
  }

  /** The first segments the parser recognises. */
  predicate KnownFirstSegment(segment: string)
  {
    segment in {"", "home", "login", "logout", "register", "profile", "gift_ideas"}
  }

  /** A usable profile route names a user: the parser never yields an empty username. */
  predicate WellFormed(r: Route)
  {
    r.Profile? ==> r.username != ""
  }

  /** Parsing a route's own path gives the route back. */
  lemma PathRoundTrip(r: Route)
    requires WellFormed(r)
    ensures TryFrom(Path(r)) == Ok(r)
  {
  }

  /** Segments after the deciding ones are ignored. */
  lemma TrailingSegmentsIgnored(path: seq<string>, extra: seq<string>)
    requires |path| >= 2 || (|path| == 1 && path[0] != "profile")
    ensures TryFrom(path + extra) == TryFrom(path)
  {
    assert (path + extra)[0] == path[0];
    if |path| >= 2 {
      assert (path + extra)[1] == path[1];
    }
  }

  /** Distinct routes have distinct paths. */
  lemma PathInjective(r: Route, s: Route)
    requires Path(r) == Path(s)
    ensures r == s
  {
    if r.Profile? {
      assert Path(r)[1] == r.username;
    }
  }

  /**
   * The segments of a URL path string: the leading slash dropped, the rest cut at
   * every slash. This is how the browser's location reaches `TryFrom`.
   */
  function Segments(url: string): (segments: seq<string>)
    requires |url| >= 1 && url[0] == '/'
  {
    Split(url[1..])
  }

  /** `s` cut at every slash; always at least one (possibly empty) piece. */
  function Split(s: string): (pieces: seq<string>)
    ensures |pieces| >= 1
  {
    if |s| == 0 then [""]
    else
      var rest := Split(s[1..]);
      if s[0] == '/' then [""] + rest else [[s[0]] + rest[0]] + rest[1..]
  }

  /** A piece without slashes in front of `s` lengthens the first piece of `Split(s)`. */
  lemma {:induction false} SplitPrefix(a: string, s: string)
    requires '/' !in a
    ensures Split(a + s) == [a + Split(s)[0]] + Split(s)[1..]
  {
    if |a| > 0 {
      assert (a + s)[1..] == a[1..] + s;
      assert (a + s)[0] == a[0];
      SplitPrefix(a[1..], s);
      assert [a[0]] + (a[1..] + Split(s)[0]) == a + Split(s)[0];
    } else {
      var pieces := Split(s);
      assert a + s == s;
      assert a + pieces[0] == pieces[0];
      assert pieces == [pieces[0]] + pieces[1..];
    }
  }

  /** Cutting a joined list of slash-free segments gives the list back. */
  lemma {:induction false} SplitJoin(segments: seq<string>)
    requires |segments| >= 1
    requires forall i | 0 <= i < |segments| :: '/' !in segments[i]
    ensures Split(Join(segments)) == segments
  {
    if |segments| == 1 {
      SplitPrefix(segments[0], "");
      assert segments[0] + "" == segments[0];
    } else {
      var rest := Join(segments[1..]);
      SplitJoin(segments[1..]);
      assert Join(segments) == segments[0] + ("/" + rest);
      SplitPrefix(segments[0], "/" + rest);
      assert ("/" + rest)[1..] == rest;
      assert Split("/" + rest) == [""] + Split(rest);
      assert segments[0] + "" == segments[0];
      assert segments == [segments[0]] + segments[1..];
    }
  }

  /**
   * A link to a route leads back to it: cutting the displayed string into segments
   * and parsing them gives the route (usernames hold no slash).
   */
  lemma DisplayRoundTrip(r: Route)
    requires WellFormed(r)
    requires r.Profile? ==> '/' !in r.username
    ensures TryFrom(Segments(Display(r))) == Ok(r)
  {
    var segments := Path(r);
    var url := Display(r);
    assert url[1..] == Join(segments);
    if r.Home? {
      assert Segments(url) == Split("");
    } else {
      forall i | 0 <= i < |segments| ensures '/' !in segments[i] {
        SlashFreeSegment(r, i);
      }
      SplitJoin(segments);
      assert Segments(url) == segments;
      PathRoundTrip(r);
    }
  }

  /** No segment of a path holds a slash, given a slash-free username. */
  lemma SlashFreeSegment(r: Route, i: int)
    requires r.Profile? ==> '/' !in r.username
    requires 0 <= i < |Path(r)|
    ensures '/' !in Path(r)[i]
  {
    match r
    case Login => assert Path(r)[i] == "login";
    case Logout => assert Path(r)[i] == "logout";
    case Register => assert Path(r)[i] == "register";
    case Profile(u) => assert Path(r)[i] == "profile" || Path(r)[i] == u;
    case GiftIdeas => assert Path(r)[i] == "gift_ideas";
  }
}
