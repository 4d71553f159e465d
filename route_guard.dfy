/**
 * The redirect decision of middleware.ts. Which user the session belongs
 * to is an input; the cookie plumbing around it is not modelled.
 */
module RouteGuard {
  import opened Wrappers
  import opened Strings

  const ProtectedPaths: seq<string> := ["/dashboard", "/translators", "/auctions", "/analytics", "/settings"]
  const AuthPaths: seq<string> := ["/login", "/register"]

  /** `prefixes.some((p) => path.startsWith(p))`. */
  function StartsWithAny(path: string, prefixes: seq<string>): (b: bool)
    ensures b <==> exists i :: 0 <= i < |prefixes| && StartsWith(path, prefixes[i])
  {
    if |prefixes| == 0 then false
    else if StartsWith(path, prefixes[0]) then true
    else
      var rest := StartsWithAny(path, prefixes[1..]);
      assert forall i :: 1 <= i < |prefixes| ==> prefixes[i] == prefixes[1..][i - 1];
      rest
  }

  /** The dashboard, translators, auctions, analytics and settings pages, and everything below them. */
  predicate IsProtectedPath(path: string)
    ensures IsProtectedPath(path) <==>
      StartsWith(path, "/dashboard") || StartsWith(path, "/translators") || StartsWith(path, "/auctions")
      || StartsWith(path, "/analytics") || StartsWith(path, "/settings")
  {
    var ps := ProtectedPaths;
    assert ps[0] == "/dashboard" && ps[1] == "/translators" && ps[2] == "/auctions" && ps[3] == "/analytics" && ps[4] == "/settings";
    assert forall i :: 0 <= i < |ps| ==> ps[i] in {"/dashboard", "/translators", "/auctions", "/analytics", "/settings"};
    StartsWithAny(path, ps)
  }

  /** The login and register pages, and everything below them. */
  predicate IsAuthPath(path: string)
    ensures IsAuthPath(path) <==> StartsWith(path, "/login") || StartsWith(path, "/register")
  {
    var ps := AuthPaths;
    assert ps[0] == "/login" && ps[1] == "/register";
    assert forall i :: 0 <= i < |ps| ==> ps[i] in {"/login", "/register"};
    StartsWithAny(path, ps)
  }

  /** What `supabase.auth.getUser()` came to: a user, none, or an exception. */
  datatype UserLookup = SignedIn | SignedOut | Threw

  datatype Decision = RedirectToLogin | RedirectToDashboard | PassThrough

  /** A variable of the environment counts when it is set to a non-empty string. */
  predicate Configured(supabaseUrl: Option<string>, supabaseAnonKey: Option<string>) {
    supabaseUrl.Some? && |supabaseUrl.value| > 0 && supabaseAnonKey.Some? && |supabaseAnonKey.value| > 0
  }

  /** `middleware`. */
  function Middleware(supabaseUrl: Option<string>, supabaseAnonKey: Option<string>, path: string, user: UserLookup): (d: Decision)
    ensures d == RedirectToLogin <==>
      Configured(supabaseUrl, supabaseAnonKey) && user == SignedOut && IsProtectedPath(path)
    ensures d == RedirectToDashboard <==>
      Configured(supabaseUrl, supabaseAnonKey) && user == SignedIn && IsAuthPath(path)
  {
    if !Configured(supabaseUrl, supabaseAnonKey) then PassThrough
    else if user == Threw then PassThrough
    else
      var protected := IsProtectedPath(path);
      var auth := IsAuthPath(path);
      if protected && user == SignedOut then RedirectToLogin
      else if auth && user == SignedIn then RedirectToDashboard
      else PassThrough
  }

  /** Two prefixes of one path agree on their common length. */
  lemma PrefixesAgree(path: string, a: string, b: string, k: nat)
    requires StartsWith(path, a) && StartsWith(path, b)
    requires k < |a| && k < |b|
    ensures a[k] == b[k]
  {
    assert a[k] == path[..|a|][k] == path[k];
    assert b[k] == path[..|b|][k] == path[k];
  }

  /** No path is both protected and an auth page, so at most one redirect applies. */
  lemma ProtectedAndAuthDisjoint(path: string)
    ensures !(IsProtectedPath(path) && IsAuthPath(path))
  {
    if IsProtectedPath(path) && IsAuthPath(path) {
      var i :| 0 <= i < |ProtectedPaths| && StartsWith(path, ProtectedPaths[i]);
      var j :| 0 <= j < |AuthPaths| && StartsWith(path, AuthPaths[j]);
      PrefixesAgree(path, ProtectedPaths[i], AuthPaths[j], 1);
      assert false;
    }
  }

  /** The guard fails open: no environment, or an error, lets every request through. */
  lemma FailsOpen(supabaseUrl: Option<string>, supabaseAnonKey: Option<string>, path: string, user: UserLookup)
    requires !Configured(supabaseUrl, supabaseAnonKey) || user == Threw
    ensures Middleware(supabaseUrl, supabaseAnonKey, path, user) == PassThrough
  {
  }

  /** The check is a plain prefix test: a longer segment name is protected too. */
  lemma PrefixIsNotSegment(suffix: string)
    ensures IsProtectedPath("/auctions" + suffix)
  {
    assert StartsWith("/auctions" + suffix, ProtectedPaths[2]) by {
      assert ("/auctions" + suffix)[..|"/auctions"|] == "/auctions";
    }
  }
}
