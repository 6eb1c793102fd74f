/** The serverless entry point of api/index.js: the origin allow-list that
    the CORS layer consults, and the memoised database connection. */
module Api {
  import opened JsValues
  import Db

  // ---------------------------------------------------------------------
  // Explicit origins
  // ---------------------------------------------------------------------

  const DeployedFrontend: string := "https://dbms-frontend-eta.vercel.app"
  const LocalFrontend: string := "http://localhost:5173"

  /** `[FRONTEND_ORIGIN, deployed, local].filter(Boolean)`: the two fixed
      origins always, the configured one only when it is set and non-empty. */
  function ExplicitOrigins(frontendOrigin: Option<string>): (r: seq<string>)
    ensures |r| == if Truthy(frontendOrigin) then 3 else 2
    ensures r[|r| - 2..] == [DeployedFrontend, LocalFrontend]
    ensures Truthy(frontendOrigin) ==> r[0] == frontendOrigin.value
    ensures forall o :: o in r <==>
              o == DeployedFrontend || o == LocalFrontend || (Truthy(frontendOrigin) && o == frontendOrigin.value)
  {
    var xs := [frontendOrigin, Some(DeployedFrontend), Some(LocalFrontend)];
    FilterTruthyAppend([frontendOrigin], [Some(DeployedFrontend), Some(LocalFrontend)]);
    FilterTruthyAppend([Some(DeployedFrontend)], [Some(LocalFrontend)]);
    assert xs == [frontendOrigin] + [Some(DeployedFrontend), Some(LocalFrontend)];
    assert [Some(DeployedFrontend), Some(LocalFrontend)] == [Some(DeployedFrontend)] + [Some(LocalFrontend)];
    FilterTruthy(xs)
  }

  // ---------------------------------------------------------------------
  // The loopback pattern /^https?:\/\/(localhost|127\.0\.0\.1)(:\d+)?$/i
  // ---------------------------------------------------------------------

  /** Case folding as far as this pattern can observe it. A case-insensitive,
      non-Unicode JavaScript pattern compares characters after upper-casing
      them, and that never maps a non-ASCII character to an ASCII one. Every
      character of the pattern is ASCII, so a character of the input can only
      match one of them if it is ASCII itself, and among ASCII characters the
      comparison is exactly "equal up to the case of A-Z". Comparing `Fold`
      images is therefore exact for this pattern. */
  function Fold(c: char): char {
    if 'A' <= c <= 'Z' then (c as int - 'A' as int + 'a' as int) as char else c
  }

  predicate SameIgnoringCase(a: string, b: string) {
    |a| == |b| && forall i :: 0 <= i < |a| ==> Fold(a[i]) == Fold(b[i])
  }

  predicate IsDigit(c: char) {
    '0' <= c <= '9'
  }

  /** `(:\d+)?$`: either nothing, or a colon and one or more digits, and
      then the end of the input. */
  predicate IsPortSuffix(s: string) {
    s == [] || (|s| >= 2 && s[0] == ':' && forall i :: 1 <= i < |s| ==> IsDigit(s[i]))
  }

  const Schemes: set<string> := {"http", "https"}
  const Hosts: set<string> := {"localhost", "127.0.0.1"}

  /** `origin` is `scheme://host` in any letter case, followed by an
      optional numeric port and nothing else. */
  ghost predicate ShapedBy(origin: string, scheme: string, host: string) {
    var p := scheme + "://" + host;
    && scheme in Schemes && host in Hosts
    && |p| <= |origin| && SameIgnoringCase(origin[..|p|], p) && IsPortSuffix(origin[|p|..])
  }

  /** The origins the pattern describes: a scheme, `://`, a loopback host,
      in any letter case, then an optional numeric port, and nothing else. */
  ghost predicate LocalhostShape(origin: string) {
    exists scheme, host :: ShapedBy(origin, scheme, host)
  }

  /** Matches `lit` at the start of `s`, ignoring case, and gives what follows. */
  function Literal(s: string, lit: string): Option<string> {
    if lit == [] then Some(s)
    else if s != [] && Fold(s[0]) == Fold(lit[0]) then Literal(s[1..], lit[1..])
    else None
  }

  /** `Literal` succeeds exactly on a case-insensitive prefix match and
      leaves the rest of the input. */
  lemma {:induction false} LiteralMatchesPrefix(s: string, lit: string)
    ensures Literal(s, lit).Some? <==> |lit| <= |s| && SameIgnoringCase(s[..|lit|], lit)
    ensures Literal(s, lit).Some? ==> Literal(s, lit).value == s[|lit|..]
  {
    if lit != [] && s != [] {
      LiteralMatchesPrefix(s[1..], lit[1..]);
      if |lit| <= |s| {
        assert s[..|lit|] == [s[0]] + s[1..][..|lit| - 1];
      }
    }
  }

  /** `https?:\/\/`: the scheme, whose `s` is taken when present, then `://`. */
  function AfterScheme(origin: string): Option<string> {
    match Literal(origin, "http")
    case None => None
    case Some(a) =>
      var b := if a != [] && Fold(a[0]) == 's' then a[1..] else a;
      Literal(b, "://")
  }

  /** `(localhost|127\.0\.0\.1)`: the first alternative, else the second. */
  function AfterHost(s: string): Option<string> {
    match Literal(s, "localhost")
    case Some(r) => Some(r)
    case None => Literal(s, "127.0.0.1")
  }

  /** `isLocalhost(origin)`: the pattern, matched stage by stage. */
  predicate IsLocalhost(origin: string) {
    match AfterScheme(origin)
    case None => false
    case Some(a) =>
      match AfterHost(a)
      case None => false
      case Some(b) => IsPortSuffix(b)
  }

  lemma {:induction false} LiteralAppend(s: string, p: string, q: string)
    ensures Literal(s, p + q) ==
              match Literal(s, p)
              case None => None
              case Some(r) => Literal(r, q)
  {
    if p != [] {
      assert (p + q)[0] == p[0] && (p + q)[1..] == p[1..] + q;
      if s != [] {
        LiteralAppend(s[1..], p[1..], q);
      }
    } else {
      assert p + q == q;
    }
  }

  /** The stage-by-stage matcher accepts exactly the origins of the shape. */
  lemma IsLocalhostMatchesShape(origin: string)
    ensures IsLocalhost(origin) <==> LocalhostShape(origin)
  {
    if IsLocalhost(origin) {
      ShapeOfMatch(origin);
    }
    if LocalhostShape(origin) {
      var scheme, host :| ShapedBy(origin, scheme, host);
      MatchOfShape(origin, scheme, host);
    }
  }

  lemma ShapeOfMatch(origin: string)
    requires IsLocalhost(origin)
    ensures LocalhostShape(origin)
  {
    var a := Literal(origin, "http").value;
    var takesS := a != [] && Fold(a[0]) == 's';
    var b := if takesS then a[1..] else a;
    var scheme := if takesS then "https" else "http";
    if takesS {
      assert Literal(a, "s") == Some(a[1..]);
      LiteralAppend(origin, "http", "s");
      assert "http" + "s" == "https";
    }
    assert Literal(origin, scheme) == Some(b);
    var c := Literal(b, "://").value;
    LiteralAppend(origin, scheme, "://");
    var host := if Literal(c, "localhost").Some? then "localhost" else "127.0.0.1";
    var d := Literal(c, host).value;
    LiteralAppend(origin, scheme + "://", host);
    var p := scheme + "://" + host;
    assert Literal(origin, p) == Some(d);
    LiteralMatchesPrefix(origin, p);
    assert ShapedBy(origin, scheme, host);
  }

  lemma MatchOfShape(origin: string, scheme: string, host: string)
    requires ShapedBy(origin, scheme, host)
    ensures IsLocalhost(origin)
  {
    var p := scheme + "://" + host;
    LiteralMatchesPrefix(origin, p);
    assert Literal(origin, p) == Some(origin[|p|..]);
    LiteralAppend(origin, scheme + "://", host);
    LiteralAppend(origin, scheme, "://");
    var x := Literal(origin, scheme).value;
    var y := Literal(x, "://").value;
    assert Literal(y, host) == Some(origin[|p|..]);
    // The scheme stage lands on `x` whichever scheme it was.
    if scheme == "https" {
      assert scheme == "http" + "s";
      LiteralAppend(origin, "http", "s");
      var a := Literal(origin, "http").value;
      assert Literal(a, "s") == Some(x);
      assert a != [] && Fold(a[0]) == 's' && x == a[1..];
    } else {
      assert x != [] && Fold(x[0]) == ':';
    }
    assert AfterScheme(origin) == Some(y);
    // The host stage lands on the same rest whichever host it was.
    if host == "127.0.0.1" {
      assert y != [] && Fold(y[0]) == '1';
      assert Literal(y, "localhost") == None;
    }
    assert AfterHost(y) == Some(origin[|p|..]);
  }

  // ---------------------------------------------------------------------
  // What the pattern accepts and rejects
  // ---------------------------------------------------------------------

  /** Letter case is ignored across the whole origin. */
  lemma IsLocalhostIgnoresCase(a: string, b: string)
    requires SameIgnoringCase(a, b)
    ensures IsLocalhost(a) <==> IsLocalhost(b)
  {
    IsLocalhostMatchesShape(a);
    IsLocalhostMatchesShape(b);
    if LocalhostShape(a) {
      ShapeIgnoresCase(a, b);
    }
    if LocalhostShape(b) {
      ShapeIgnoresCase(b, a);
    }
  }

  lemma ShapeIgnoresCase(a: string, b: string)
    requires SameIgnoringCase(a, b) && LocalhostShape(a)
    ensures LocalhostShape(b)
  {
    var scheme, host :| ShapedBy(a, scheme, host);
    var p := scheme + "://" + host;
    assert SameIgnoringCase(b[..|p|], p) by {
      forall i | 0 <= i < |p| ensures Fold(b[..|p|][i]) == Fold(p[i]) {
        assert Fold(b[i]) == Fold(a[i]);
      }
    }
    assert IsPortSuffix(b[|p|..]) by {
      var s, t := a[|p|..], b[|p|..];
      assert |s| == |t|;
      forall i | 0 <= i < |t| ensures Fold(t[i]) == Fold(s[i]) && (t[i] == ':' <==> s[i] == ':') &&
        (IsDigit(t[i]) <==> IsDigit(s[i])) {
        assert Fold(t[i]) == Fold(b[|p| + i]) && Fold(s[i]) == Fold(a[|p| + i]);
      }
    }
    assert ShapedBy(b, scheme, host);
  }

  /** The pattern is anchored at the end: once an origin is accepted,
      appending anything that does not start a port (a slash, a path, a dot
      and a lookalike domain) makes it rejected. */
  lemma AnchoredAtEnd(origin: string, tail: string)
    requires IsLocalhost(origin)
    requires tail != [] && !IsDigit(tail[0]) && tail[0] != ':'
    ensures !IsLocalhost(origin + tail)
  {
    IsLocalhostMatchesShape(origin);
    IsLocalhostMatchesShape(origin + tail);
    ShapeAnchoredAtEnd(origin, tail);
  }

  lemma ShapeAnchoredAtEnd(origin: string, tail: string)
    requires LocalhostShape(origin)
    requires tail != [] && !IsDigit(tail[0]) && tail[0] != ':'
    ensures !LocalhostShape(origin + tail)
  {
    if LocalhostShape(origin + tail) {
      var scheme, host :| ShapedBy(origin + tail, scheme, host);
      var scheme', host' :| ShapedBy(origin, scheme', host');
      ShapeUnique(origin, tail, scheme, host, scheme', host');
      var p := scheme + "://" + host;
      assert (origin + tail)[|p|..] == origin[|p|..] + tail;
      PortSuffixAnchored(origin[|p|..], tail);
    }
  }

  /** An origin and its extension agree on scheme and host, because the
      alternatives of each differ at a fixed position. */
  lemma ShapeUnique(origin: string, tail: string, scheme: string, host: string, scheme': string, host': string)
    requires ShapedBy(origin + tail, scheme, host) && ShapedBy(origin, scheme', host')
    ensures scheme == scheme' && host == host'
  {
    var s := origin + tail;
    var p, p' := scheme + "://" + host, scheme' + "://" + host';
    assert s[..|p|][4] == s[4] && origin[..|p'|][4] == s[4];
    assert Fold(p[4]) == Fold(p'[4]);
    assert p[4] == (if scheme == "http" then ':' else 's');
    assert p'[4] == (if scheme' == "http" then ':' else 's');
    var k := |scheme| + 3;
    assert s[..|p|][k] == s[k] && origin[..|p'|][k] == s[k];
    assert Fold(p[k]) == Fold(p'[k]);
    assert p[k] == host[0] && p'[k] == host'[0];
  }

  lemma PortSuffixAnchored(rest: string, tail: string)
    requires IsPortSuffix(rest)
    requires tail != [] && !IsDigit(tail[0]) && tail[0] != ':'
    ensures !IsPortSuffix(rest + tail)
  {
    if rest == [] {
      assert (rest + tail)[0] == tail[0];
    } else {
      assert (rest + tail)[|rest|] == tail[0];
    }
  }

  /** Called without an argument, `isLocalhost` tests the default `''`. */
  lemma EmptyOriginIsNotLocalhost()
    ensures !IsLocalhost("")
  {
  }

  lemma AcceptsDevFrontend()
    ensures IsLocalhost("http://localhost:5173")
  {
    assert ShapedBy("http://localhost:5173", "http", "localhost");
    MatchOfShape("http://localhost:5173", "http", "localhost");
  }

  lemma AcceptsUpperCase()
    ensures IsLocalhost("HTTP://LOCALHOST:5173")
  {
    assert ShapedBy("HTTP://LOCALHOST:5173", "http", "localhost");
    MatchOfShape("HTTP://LOCALHOST:5173", "http", "localhost");
  }

  lemma AcceptsLoopbackAddress()
    ensures IsLocalhost("https://127.0.0.1")
  {
    assert ShapedBy("https://127.0.0.1", "https", "127.0.0.1");
    MatchOfShape("https://127.0.0.1", "https", "127.0.0.1");
  }

  lemma RejectsTrailingSlash()
    ensures !LocalhostShape("http://localhost/")
  {
    assert ShapedBy("http://localhost", "http", "localhost");
    ShapeAnchoredAtEnd("http://localhost", "/");
    assert "http://localhost" + "/" == "http://localhost/";
  }

  lemma RejectsLookalikeHost()
    ensures !LocalhostShape("http://localhost.evil.com")
  {
    assert ShapedBy("http://localhost", "http", "localhost");
    ShapeAnchoredAtEnd("http://localhost", ".evil.com");
    assert "http://localhost" + ".evil.com" == "http://localhost.evil.com";
  }

  lemma RejectsPath()
    ensures !LocalhostShape("http://127.0.0.1:5173/api")
  {
    assert ShapedBy("http://127.0.0.1:5173", "http", "127.0.0.1");
    ShapeAnchoredAtEnd("http://127.0.0.1:5173", "/api");
    assert "http://127.0.0.1:5173" + "/api" == "http://127.0.0.1:5173/api";
  }

  lemma RejectsBareColon()
    ensures !IsLocalhost("http://localhost:")
  {
    IsLocalhostMatchesShape("http://localhost:");
    assert ShapedBy("http://localhost", "http", "localhost");
    assert "http://localhost" + ":" == "http://localhost:";
    if LocalhostShape("http://localhost:") {
      var scheme, host :| ShapedBy("http://localhost" + ":", scheme, host);
      ShapeUnique("http://localhost", ":", scheme, host, "http", "localhost");
    }
  }

  lemma RejectsOtherScheme()
    ensures !IsLocalhost("ftp://localhost")
  {
  }

  // ---------------------------------------------------------------------
  // The origin callback
  // ---------------------------------------------------------------------

  datatype CorsDecision = Allow | Deny(error: string)

  /** `corsOptions.origin`: requests without an origin, listed origins and
      loopback origins are allowed; anything else is refused with an error. */
  function OriginCallback(explicitOrigins: seq<string>, origin: Option<string>): (d: CorsDecision)
    ensures d == Allow <==>
              !Truthy(origin) || origin.value in explicitOrigins || LocalhostShape(origin.value)
    ensures d != Allow ==> d == Deny("Not allowed by CORS")
  {
    IsLocalhostMatchesShape(if origin.Some? then origin.value else "");
    if !Truthy(origin) || origin.value in explicitOrigins || IsLocalhost(origin.value) then Allow
    else Deny("Not allowed by CORS")
  }

  /** The policy the deployed callback enforces, in terms of the environment:
      no origin, the deployed frontend, the configured origin when set, or
      any loopback origin. The hard-coded local origin needs no entry of its
      own: it is a loopback origin. */
  lemma CorsPolicy(frontendOrigin: Option<string>, origin: Option<string>)
    ensures OriginCallback(ExplicitOrigins(frontendOrigin), origin) == Allow <==>
              || !Truthy(origin)
              || origin.value == DeployedFrontend
              || (Truthy(frontendOrigin) && origin.value == frontendOrigin.value)
              || LocalhostShape(origin.value)
  {
    AcceptsDevFrontend();
    IsLocalhostMatchesShape(LocalFrontend);
  }

  /** A lookalike of a loopback origin is refused unless it is configured. */
  lemma LookalikeRefused(frontendOrigin: Option<string>)
    requires frontendOrigin != Some("http://localhost.evil.com")
    ensures OriginCallback(ExplicitOrigins(frontendOrigin), Some("http://localhost.evil.com"))
              == Deny("Not allowed by CORS")
  {
    RejectsLookalikeHost();
    var o := "http://localhost.evil.com";
    assert o != DeployedFrontend by { assert o[4] != DeployedFrontend[4]; }
    assert o != LocalFrontend by { assert o[16] != LocalFrontend[16]; }
  }

  // ---------------------------------------------------------------------
  // The memoised connection
  // ---------------------------------------------------------------------

  /** The module-level `dbConnectionPromise` and `ensureDBConnection`. A
      promise is identified with the outcome it settles to; `connectCalls`
      counts the invocations of `connectDB`. */
  class ConnectionMemo {
    var dbConnectionPromise: Option<Db.ConnectOutcome>
    ghost var connectCalls: nat

    ghost predicate Valid()
      reads this
    {
      connectCalls <= 1 && (dbConnectionPromise.None? <==> connectCalls == 0)
    }

    constructor ()
      ensures Valid() && dbConnectionPromise == None && connectCalls == 0
    {
      dbConnectionPromise := None;
      connectCalls := 0;
    }

    /** Starts `connectDB` on the first call only; every call returns the
        cached promise, a rejected one included. */
    method EnsureDBConnection(db: Db.Database, env: Db.Env, connectError: Option<string>,
                              listFails: bool, rejected: set<string>)
      returns (p: Db.ConnectOutcome)
      requires Valid()
      modifies this, db
      ensures Valid()
      ensures dbConnectionPromise == Some(p)
      ensures old(dbConnectionPromise).Some? ==>
                p == old(dbConnectionPromise).value && connectCalls == old(connectCalls) && unchanged(db)
      ensures old(dbConnectionPromise).None? ==>
                p == Db.ConnectOutcomeOf(env, connectError) && connectCalls == 1
      ensures old(dbConnectionPromise).None? && connectError.Some? ==> unchanged(db)
      ensures old(dbConnectionPromise).None? && connectError.None? ==>
                db.createLog == old(db.createLog) + Db.BootstrapCalls(old(db.collections), listFails, rejected)
      ensures old(dbConnectionPromise).None? && connectError.None? ==>
                db.collections == old(db.collections)
                  + Db.Created(Db.BootstrapCalls(old(db.collections), listFails, rejected), rejected)
    {
      if dbConnectionPromise.None? {
        var outcome := db.ConnectDB(env, connectError, listFails, rejected);
        connectCalls := connectCalls + 1;
        dbConnectionPromise := Some(outcome);
      }
      p := dbConnectionPromise.value;
    }
  }

  /** A run of invocations, the `i`-th of which would see connecting fail
      with `connectErrors[i]`: `connectDB` runs at most once, and every
      invocation gets the first attempt's outcome, with no retry. */
  method InvokeRepeatedly(memo: ConnectionMemo, db: Db.Database, env: Db.Env,
                          connectErrors: seq<Option<string>>, listFails: bool, rejected: set<string>)
    returns (results: seq<Db.ConnectOutcome>)
    requires memo.Valid()
    modifies memo, db
    ensures memo.Valid() && memo.connectCalls <= 1
    ensures |results| == |connectErrors|
    ensures forall i :: 0 <= i < |results| ==> memo.dbConnectionPromise == Some(results[i])
    ensures old(memo.dbConnectionPromise).Some? || connectErrors == [] ==>
              memo.dbConnectionPromise == old(memo.dbConnectionPromise) &&
              memo.connectCalls == old(memo.connectCalls) && unchanged(db)
    ensures old(memo.dbConnectionPromise).None? && connectErrors != [] ==>
              results[0] == Db.ConnectOutcomeOf(env, connectErrors[0]) && memo.connectCalls == 1
    ensures old(memo.dbConnectionPromise).None? && connectErrors != [] && connectErrors[0].Some? ==>
              unchanged(db)
    ensures old(memo.dbConnectionPromise).None? && connectErrors != [] && connectErrors[0].None? ==>
              db.createLog == old(db.createLog) + Db.BootstrapCalls(old(db.collections), listFails, rejected) &&
              db.collections == old(db.collections)
                + Db.Created(Db.BootstrapCalls(old(db.collections), listFails, rejected), rejected)
  {
    results := [];
    var i := 0;
    while i < |connectErrors|
      invariant 0 <= i <= |connectErrors| && |results| == i
      invariant memo.Valid()
      invariant i == 0 ==> memo.dbConnectionPromise == old(memo.dbConnectionPromise) &&
                             memo.connectCalls == old(memo.connectCalls) && unchanged(db)
      invariant forall k :: 0 <= k < i ==> memo.dbConnectionPromise == Some(results[k])
      invariant old(memo.dbConnectionPromise).Some? ==>
                  memo.dbConnectionPromise == old(memo.dbConnectionPromise) &&
                  memo.connectCalls == old(memo.connectCalls) && unchanged(db)
      invariant old(memo.dbConnectionPromise).None? && i > 0 ==>
                  results[0] == Db.ConnectOutcomeOf(env, connectErrors[0]) && memo.connectCalls == 1
      invariant old(memo.dbConnectionPromise).None? && i > 0 && connectErrors[0].Some? ==> unchanged(db)
      invariant old(memo.dbConnectionPromise).None? && i > 0 && connectErrors[0].None? ==>
                  db.createLog == old(db.createLog) + Db.BootstrapCalls(old(db.collections), listFails, rejected) &&
                  db.collections == old(db.collections)
                    + Db.Created(Db.BootstrapCalls(old(db.collections), listFails, rejected), rejected)
    {
      var p := memo.EnsureDBConnection(db, env, connectErrors[i], listFails, rejected);
      results := results + [p];
      i := i + 1;
    }
  }
}
