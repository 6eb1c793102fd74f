/** The database connector of config/db.js: choosing the connection string,
    the outcome of a failed connection, and the bootstrap loop that creates
    the expected collections missing from the database. */
module Db {
  import opened JsValues

  /** The process environment variables `connectDB` reads. */
  datatype Env = Env(mongodbUri: Option<string>, vercel: Option<string>)

  /** Stands for the connection string built into the source; its text is
      deliberately not reproduced. */
  const FallbackUri: string := "mongodb+srv://<built-in fallback>"

  /** The collections the bootstrap makes sure exist, in the order it visits them. */
  const ExpectedCollections: seq<string> :=
    ["users", "animes", "genshins", "games", "credentials", "kdramas", "movies"]

  /** How a call of `connectDB` settles: connected with the URI it used, a
      rejection carrying the connection error (only on Vercel), or the
      process exiting with status 1. */
  datatype ConnectOutcome = Connected(uri: string) | Rethrown(error: string) | Exited(code: int)

  /** `process.env.MONGODB_URI` when it is set and non-empty, the fallback otherwise. */
  function ChooseUri(mongodbUri: Option<string>): (uri: string)
    ensures uri != ""
    ensures Truthy(mongodbUri) ==> uri == mongodbUri.value
    ensures !Truthy(mongodbUri) ==> uri == FallbackUri
  {
    if Truthy(mongodbUri) then mongodbUri.value else FallbackUri
  }

  /** The outcome of `connectDB`, given the error (if any) that connecting to
      the chosen URI raises. A failing bootstrap is not an input: its errors
      are caught before they reach `connectDB`. */
  function ConnectOutcomeOf(env: Env, connectError: Option<string>): (r: ConnectOutcome)
    ensures r.Connected? <==> connectError.None?
    ensures r.Connected? ==> r.uri == ChooseUri(env.mongodbUri)
    ensures r.Exited? <==> connectError.Some? && env.vercel != Some("1")
    ensures r.Exited? ==> r.code == 1
    ensures r.Rethrown? ==> connectError == Some(r.error) && env.vercel == Some("1")
  {
    match connectError
    case None => Connected(ChooseUri(env.mongodbUri))
    case Some(e) => if env.vercel != Some("1") then Exited(1) else Rethrown(e)
  }

  predicate NoDuplicates(s: seq<string>) {
    forall i, j :: 0 <= i < j < |s| ==> s[i] != s[j]
  }

  /** The names of `names` that are not in `existing`, in the order of `names`. */
  function Missing(names: seq<string>, existing: set<string>): (r: seq<string>)
    ensures |r| <= |names|
  {
    if names == [] then []
    else if names[0] !in existing then [names[0]] + Missing(names[1..], existing)
    else Missing(names[1..], existing)
  }

  /** Exactly the names of the list that are absent are kept ... */
  lemma {:induction false} MissingMembers(names: seq<string>, existing: set<string>)
    ensures forall n :: n in Missing(names, existing) <==> n in names && n !in existing
  {
    if names != [] {
      MissingMembers(names[1..], existing);
      assert forall n :: n in names <==> n == names[0] || n in names[1..];
    }
  }

  /** ... and each of them once, when the list has no repeated names. */
  lemma {:induction false} MissingDistinct(names: seq<string>, existing: set<string>)
    requires NoDuplicates(names)
    ensures NoDuplicates(Missing(names, existing))
  {
    if names != [] {
      MissingDistinct(names[1..], existing);
      MissingMembers(names[1..], existing);
    }
  }

  lemma {:induction false} MissingAppend(xs: seq<string>, ys: seq<string>, existing: set<string>)
    ensures Missing(xs + ys, existing) == Missing(xs, existing) + Missing(ys, existing)
  {
    if xs == [] {
      assert xs + ys == ys;
    } else {
      assert (xs + ys)[1..] == xs[1..] + ys;
      MissingAppend(xs[1..], ys, existing);
    }
  }

  /** The creation calls made for the names in `planned`, in order, when
      creating a name in `rejected` throws: every name up to and including
      the first rejected one. */
  function UpToFailure(planned: seq<string>, rejected: set<string>): (r: seq<string>)
    ensures |r| <= |planned| && r == planned[..|r|]
    ensures forall i :: 0 <= i < |r| - 1 ==> r[i] !in rejected
    ensures |r| < |planned| ==> |r| > 0 && r[|r| - 1] in rejected
    ensures (forall n :: n in planned ==> n !in rejected) ==> r == planned
  {
    if planned == [] then []
    else if planned[0] in rejected then [planned[0]]
    else [planned[0]] + UpToFailure(planned[1..], rejected)
  }

  lemma {:induction false} UpToFailureAppend(xs: seq<string>, ys: seq<string>, rejected: set<string>)
    requires forall n :: n in xs ==> n !in rejected
    ensures UpToFailure(xs + ys, rejected) == xs + UpToFailure(ys, rejected)
  {
    if xs != [] {
      assert (xs + ys)[1..] == xs[1..] + ys;
      UpToFailureAppend(xs[1..], ys, rejected);
    } else {
      assert xs + ys == ys;
    }
  }

  /** The `createCollection` calls of one bootstrap, given the collections
      that exist when it lists them, whether listing fails, and which
      creations throw. */
  function BootstrapCalls(existing: set<string>, listFails: bool, rejected: set<string>): seq<string> {
    if listFails then [] else UpToFailure(Missing(ExpectedCollections, existing), rejected)
  }

  /** The collections those calls actually create. */
  function Created(calls: seq<string>, rejected: set<string>): set<string> {
    set n | n in calls && n !in rejected
  }

  lemma ExpectedCollectionsDistinct()
    ensures NoDuplicates(ExpectedCollections)
  {
    var e := ExpectedCollections;
    assert e[0][0] == 'u' && e[1][0] == 'a' && e[2][0] == 'g' && e[3][0] == 'g';
    assert e[4][0] == 'c' && e[5][0] == 'k' && e[6][0] == 'm';
    assert e[2][1] == 'e' && e[3][1] == 'a';
  }

  /** Only names absent from the listing are created, each at most once, and
      only expected names. */
  lemma BootstrapCreatesOnlyMissing(existing: set<string>, listFails: bool, rejected: set<string>)
    ensures NoDuplicates(BootstrapCalls(existing, listFails, rejected))
    ensures forall n :: n in BootstrapCalls(existing, listFails, rejected) ==>
              n in ExpectedCollections && n !in existing
  {
    ExpectedCollectionsDistinct();
    MissingDistinct(ExpectedCollections, existing);
    MissingMembers(ExpectedCollections, existing);
    var m := Missing(ExpectedCollections, existing);
    var calls := BootstrapCalls(existing, listFails, rejected);
    if !listFails {
      assert calls == m[..|calls|];
      forall n | n in calls ensures n in m {
        var i :| 0 <= i < |calls| && calls[i] == n;
        assert m[i] == n;
      }
    }
  }

  /** When listing succeeds and no creation throws, every expected
      collection exists afterwards. */
  lemma BootstrapCompletes(existing: set<string>, rejected: set<string>)
    requires forall n :: n in ExpectedCollections && n !in existing ==> n !in rejected
    ensures forall n :: n in ExpectedCollections ==>
              n in existing + Created(BootstrapCalls(existing, false, rejected), rejected)
  {
    var m := Missing(ExpectedCollections, existing);
    MissingMembers(ExpectedCollections, existing);
    assert UpToFailure(m, rejected) == m;
  }

  lemma MissingStep(names: seq<string>, i: nat, existing: set<string>)
    requires i < |names|
    ensures Missing(names[..i + 1], existing) ==
              Missing(names[..i], existing) + (if names[i] in existing then [] else [names[i]])
  {
    assert names[..i + 1] == names[..i] + [names[i]];
    MissingAppend(names[..i], [names[i]], existing);
  }

  lemma CreatedAppend(calls: seq<string>, n: string, rejected: set<string>)
    ensures Created(calls + [n], rejected) == Created(calls, rejected) + (if n in rejected then {} else {n})
  {
  }

  /** A rejected creation of the `i`-th name, after a clean prefix, is the
      last creation call. */
  lemma StopsAtFirstRejection(names: seq<string>, i: nat, existing: set<string>, rejected: set<string>)
    requires i < |names|
    requires names[i] !in existing && names[i] in rejected
    requires forall n :: n in Missing(names[..i], existing) ==> n !in rejected
    ensures UpToFailure(Missing(names, existing), rejected) == Missing(names[..i], existing) + [names[i]]
  {
    var done := Missing(names[..i], existing);
    var later := Missing(names[i + 1..], existing);
    assert names == names[..i + 1] + names[i + 1..];
    MissingAppend(names[..i + 1], names[i + 1..], existing);
    MissingStep(names, i, existing);
    assert Missing(names, existing) == done + [names[i]] + later;
    assert done + [names[i]] + later == done + ([names[i]] + later);
    UpToFailureAppend(done, [names[i]] + later, rejected);
  }

  /** The database the connector talks to: its set of collection names and
      the log of `createCollection` calls made on it. */
  class Database {
    var collections: set<string>
    var createLog: seq<string>

    constructor (existing: set<string>)
      ensures collections == existing && createLog == []
    {
      collections := existing;
      createLog := [];
    }

    /** `ensureDatabaseAndCollections`: lists the collections (which may
        fail), then creates each expected one missing from that listing, in
        order. A creation in `rejected` throws; the error is caught, so the
        call returns normally and the names after it are not attempted. */
    method EnsureDatabaseAndCollections(listFails: bool, rejected: set<string>)
      modifies this
      ensures createLog == old(createLog) + BootstrapCalls(old(collections), listFails, rejected)
      ensures collections ==
                old(collections) + Created(BootstrapCalls(old(collections), listFails, rejected), rejected)
    {
      if listFails {
        assert BootstrapCalls(collections, listFails, rejected) == [];
        return;
      }
      var collectionNames := collections;
      ghost var log0 := createLog;
      var i := 0;
      while i < |ExpectedCollections|
        invariant 0 <= i <= |ExpectedCollections|
        invariant createLog == log0 + Missing(ExpectedCollections[..i], collectionNames)
        invariant forall n :: n in Missing(ExpectedCollections[..i], collectionNames) ==> n !in rejected
        invariant collections ==
                    collectionNames + Created(Missing(ExpectedCollections[..i], collectionNames), rejected)
      {
        var name := ExpectedCollections[i];
        MissingStep(ExpectedCollections, i, collectionNames);
        if name !in collectionNames {
          createLog := createLog + [name];
          if name in rejected {
            StopsAtFirstRejection(ExpectedCollections, i, collectionNames, rejected);
            CreatedAppend(Missing(ExpectedCollections[..i], collectionNames), name, rejected);
            return;
          }
          collections := collections + {name};
          CreatedAppend(Missing(ExpectedCollections[..i], collectionNames), name, rejected);
        }
        i := i + 1;
      }
      assert ExpectedCollections[..i] == ExpectedCollections;
    }

    /** `connectDB`: chooses the URI, connects (failing with `connectError`
        when that is set), then runs the bootstrap. */
    method ConnectDB(env: Env, connectError: Option<string>, listFails: bool, rejected: set<string>)
      returns (outcome: ConnectOutcome)
      modifies this
      ensures outcome == ConnectOutcomeOf(env, connectError)
      ensures connectError.Some? ==> unchanged(this)
      ensures connectError.None? ==>
                createLog == old(createLog) + BootstrapCalls(old(collections), listFails, rejected)
      ensures connectError.None? ==>
                collections == old(collections)
                  + Created(BootstrapCalls(old(collections), listFails, rejected), rejected)
    {
      var mongoUri := ChooseUri(env.mongodbUri);
      if connectError.Some? {
        if env.vercel != Some("1") {
          return Exited(1);
        }
        return Rethrown(connectError.value);
      }
      EnsureDatabaseAndCollections(listFails, rejected);
      return Connected(mongoUri);
    }
  }
}
