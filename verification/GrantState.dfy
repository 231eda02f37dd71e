/**
 The shared state that withdraws media grants: one epoch, and for each resource a version and a guard.
 Each script runs atomically on the shared database.
 */
module GrantState {
  import opened Options

  datatype Key = EpochKey | VersionKey(resource: string) | GuardKey(resource: string)

  type Database = map<Key, string>

  const DELETED := "deleted"

  /** The name under which a key is stored. */
  function KeyName(prefix: string, key: Key): string {
    prefix + match key
             case EpochKey => "epoch"
             case VersionKey(resource) => resource + ":version"
             case GuardKey(resource) => resource + ":guard"
  }

  lemma KeysAreDistinct(prefix: string, a: Key, b: Key)
    requires KeyName(prefix, a) == KeyName(prefix, b)
    ensures a == b
  {
    var x, y := KeyName(prefix, a), KeyName(prefix, b);
    assert x[|x| - 1] == y[|y| - 1];
    if a.VersionKey? {
      assert x[|prefix|..|x| - |":version"|] == a.resource && y[|prefix|..|x| - |":version"|] == b.resource;
    } else if a.GuardKey? {
      assert x[|prefix|..|x| - |":guard"|] == a.resource && y[|prefix|..|x| - |":guard"|] == b.resource;
    }
  }

  /** What is drawn at random: 16 bytes in hexadecimal. */
  predicate IsToken(v: string) {
    |v| == 32 && forall c <- v :: '0' <= c <= '9' || 'a' <= c <= 'f'
  }

  datatype Claims = Claims(epoch: string, asset: string, assetVersion: string, file: string, fileVersion: string)

  datatype Snapshot = Reading(epoch: string, versions: map<string, string>, blocked: map<string, string>)

  datatype Error = EpochMissing | BeingChanged | GuardLost | Revoked | EvictionPolicy

  datatype Result<T> = Ok(value: T) | Err(error: Error)

  function Read(db: Database, key: Key, missing: string): string { if key in db then db[key] else missing }

  function Version(db: Database, resource: string): string { Read(db, VersionKey(resource), "0") }

  function Blocked(db: Database, resource: string): string { Read(db, GuardKey(resource), "") }

  predicate Accepts(db: Database, c: Claims) {
    && EpochKey in db && db[EpochKey] == c.epoch
    && Blocked(db, c.asset) == "" && Blocked(db, c.file) == ""
    && Version(db, c.asset) == c.assetVersion && Version(db, c.file) == c.fileVersion
  }

  // ---------- The scripts as steps ----------

  datatype Event =
    | Initialize(value: string)
    | Begin(resource: string, token: string)
    | Finish(resource: string, token: string, next: string)
    | Revoke(resource: string, version: string)
    | Lose(keys: set<Key>)

  /** Whether the script reports success. */
  predicate Succeeds(db: Database, e: Event) {
    match e
    case Initialize(_) => EpochKey !in db
    case Begin(r, _) => EpochKey in db && GuardKey(r) !in db
    case Finish(r, token, _) => GuardKey(r) in db && db[GuardKey(r)] == token
    case Revoke(_, _) => EpochKey in db
    case Lose(_) => true
  }

  function After(db: Database, e: Event): Database {
    if !Succeeds(db, e) then db
    else match e
      case Initialize(value) => db[EpochKey := value]
      case Begin(r, token) => db[GuardKey(r) := token][VersionKey(r) := token]
      case Finish(r, _, next) => db[VersionKey(r) := next] - {GuardKey(r)}
      case Revoke(r, version) => db[VersionKey(r) := version][GuardKey(r) := DELETED]
      case Lose(keys) => db - keys
  }

  class State {
    var db: Database

    constructor ()
      ensures db == map[]
    {
      db := map[];
    }

    method Initialize(policy: string, value: string) returns (r: Result<()>)
      modifies this
      ensures policy != "noeviction" ==> r == Err(EvictionPolicy) && db == old(db)
      ensures policy == "noeviction" ==> r == Ok(()) && db == After(old(db), Event.Initialize(value))
      ensures policy == "noeviction" ==>
                db == if EpochKey in old(db) then old(db) else old(db)[EpochKey := value]
    {
      if policy != "noeviction" {
        return Err(EvictionPolicy);
      }
      if EpochKey !in db {
        db := db[EpochKey := value];
      }
      return Ok(());
    }

    method Snapshot(resources: seq<string>) returns (r: Result<Snapshot>)
      ensures r.Ok? <==> EpochKey in db
      ensures r.Err? ==> r.error == EpochMissing
      ensures r.Ok? ==>
                && r.value.epoch == db[EpochKey]
                && r.value.versions == (map x <- resources :: Version(db, x))
                && r.value.blocked == (map x <- resources :: Blocked(db, x))
    {
      if EpochKey !in db {
        return Err(EpochMissing);
      }
      var versions, blocked := map[], map[];
      for i := 0 to |resources|
        invariant versions == map x <- resources[..i] :: Version(db, x)
        invariant blocked == map x <- resources[..i] :: Blocked(db, x)
      {
        versions := versions[resources[i] := Version(db, resources[i])];
        blocked := blocked[resources[i] := Blocked(db, resources[i])];
      }
      assert resources[..|resources|] == resources;
      return Ok(Reading(db[EpochKey], versions, blocked));
    }

    method Check(c: Claims) returns (r: Result<()>)
      ensures r.Ok? <==> Accepts(db, c)
      ensures r.Err? ==> r.error == if EpochKey in db then Revoked else EpochMissing
    {
      var s := Snapshot([c.asset, c.file]);
      if s.Err? {
        return Err(s.error);
      }
      var snapshot := s.value;
      assert c.asset in [c.asset, c.file] && c.file in [c.asset, c.file];
      if snapshot.blocked[c.asset] != "" || snapshot.blocked[c.file] != "" || snapshot.epoch != c.epoch
         || snapshot.versions[c.asset] != c.assetVersion || snapshot.versions[c.file] != c.fileVersion
      {
        return Err(Revoked);
      }
      return Ok(());
    }

    /** On success the caller holds `version`, with which it may finish. */
    method Begin(resource: string, version: string) returns (r: Result<string>)
      modifies this
      ensures db == After(old(db), Event.Begin(resource, version))
      ensures r == if Succeeds(old(db), Event.Begin(resource, version)) then Ok(version)
                   else Err(if EpochKey in old(db) then BeingChanged else EpochMissing)
      ensures r.Ok? <==> EpochKey in old(db) && GuardKey(resource) !in old(db)
      ensures db == if r.Ok? then old(db)[GuardKey(resource) := version][VersionKey(resource) := version] else old(db)
    {
      if EpochKey !in db {
        return Err(EpochMissing);
      }
      if GuardKey(resource) in db {
        return Err(BeingChanged);
      }
      db := db[GuardKey(resource) := version];
      db := db[VersionKey(resource) := version];
      return Ok(version);
    }

    method Finish(resource: string, version: string, next: string) returns (r: Result<()>)
      modifies this
      ensures db == After(old(db), Event.Finish(resource, version, next))
      ensures r == if Succeeds(old(db), Event.Finish(resource, version, next)) then Ok(()) else Err(GuardLost)
      ensures r.Ok? <==> GuardKey(resource) in old(db) && old(db)[GuardKey(resource)] == version
      ensures db == if r.Ok? then old(db)[VersionKey(resource) := next] - {GuardKey(resource)} else old(db)
    {
      if GuardKey(resource) !in db || db[GuardKey(resource)] != version {
        return Err(GuardLost);
      }
      db := db[VersionKey(resource) := next];
      db := db - {GuardKey(resource)};
      return Ok(());
    }

    method Revoke(resource: string, version: string) returns (r: Result<()>)
      modifies this
      ensures db == After(old(db), Event.Revoke(resource, version))
      ensures r == if EpochKey in old(db) then Ok(()) else Err(EpochMissing)
      ensures db == if EpochKey in old(db)
                    then old(db)[VersionKey(resource) := version][GuardKey(resource) := DELETED] else old(db)
    {
      if EpochKey !in db {
        return Err(EpochMissing);
      }
      db := db[VersionKey(resource) := version];
      db := db[GuardKey(resource) := DELETED];
      return Ok(());
    }
  }

  // ---------- Runs ----------

  /** The database between two steps, with all values drawn so far. */
  datatype Moment = Moment(db: Database, used: set<string>)

  function Drawn(e: Event): set<string> {
    match e
    case Initialize(value) => {value}
    case Begin(_, token) => {token}
    case Finish(_, _, next) => {next}
    case Revoke(_, version) => {version}
    case Lose(_) => {}
  }

  /**
   Random values are new tokens, a writer finishes with a token, and a database that may not evict single keys
   loses the epoch whenever it loses anything.
   */
  predicate Allowed(used: set<string>, e: Event) {
    && (forall v <- Drawn(e) :: IsToken(v) && v !in used)
    && (e.Finish? ==> IsToken(e.token))
    && (e.Lose? ==> EpochKey in e.keys)
  }

  function Next(m: Moment, e: Event): Moment { Moment(After(m.db, e), m.used + Drawn(e)) }

  ghost predicate IsRun(h: seq<Moment>, es: seq<Event>) {
    && |h| == |es| + 1
    && h[0] == Moment(map[], {})
    && forall k :: 0 <= k < |es| ==> Allowed(h[k].used, es[k]) && h[k + 1] == Next(h[k], es[k])
  }

  /** Every stored value was drawn before, apart from the mark of deletion. */
  ghost predicate Known(m: Moment) {
    && (forall key <- m.db :: m.db[key] in m.used || (key.GuardKey? && m.db[key] == DELETED))
    && forall v <- m.used :: IsToken(v)
  }

  lemma {:induction false} AlwaysKnown(h: seq<Moment>, es: seq<Event>, k: nat)
    requires IsRun(h, es) && k < |h|
    ensures Known(h[k])
  {
    if k > 0 {
      AlwaysKnown(h, es, k - 1);
      assert h[k] == Next(h[k - 1], es[k - 1]);
    }
  }

  predicate SameAt(a: Database, b: Database, key: Key) {
    && (key in a <==> key in b)
    && (key in a ==> a[key] == b[key])
  }

  /** Version and guard of a resource are as they were. */
  predicate Quiet(a: Database, b: Database, resource: string) {
    SameAt(a, b, VersionKey(resource)) && SameAt(a, b, GuardKey(resource))
  }

  predicate Touches(db: Database, e: Event, resource: string) {
    Succeeds(db, e) && match e
      case Initialize(_) => false
      case Lose(_) => true
      case Begin(r, _) => r == resource
      case Finish(r, _, _) => r == resource
      case Revoke(r, _) => r == resource
  }

  lemma UsedOnlyGrows(h: seq<Moment>, es: seq<Event>, i: nat, j: nat)
    requires IsRun(h, es) && i <= j < |h|
    ensures h[i].used <= h[j].used
    decreases j
  {
    if i < j {
      UsedOnlyGrows(h, es, i, j - 1);
      assert h[j] == Next(h[j - 1], es[j - 1]);
    }
  }

  /** From moment i on either the epoch stays and nothing is lost, or the value it had never returns. */
  lemma {:induction false} EpochStaysOrIsNew(h: seq<Moment>, es: seq<Event>, i: nat, j: nat)
    requires IsRun(h, es) && i <= j < |h| && EpochKey in h[i].db
    ensures || (EpochKey !in h[j].db || h[j].db[EpochKey] !in h[i].used)
            || ((forall k :: i <= k <= j ==> SameAt(h[i].db, h[k].db, EpochKey)) &&
                (forall k :: i <= k < j ==> !es[k].Lose?))
    decreases j
  {
    if i < j {
      EpochStaysOrIsNew(h, es, i, j - 1);
      UsedOnlyGrows(h, es, i, j - 1);
      assert h[j] == Next(h[j - 1], es[j - 1]) && Allowed(h[j - 1].used, es[j - 1]);
    }
  }

  /** A step that touches a resource gives it a version not drawn before; any other leaves it alone. */
  lemma TouchIsNew(m: Moment, e: Event, resource: string)
    requires Allowed(m.used, e) && !e.Lose?
    ensures if Touches(m.db, e, resource)
            then VersionKey(resource) in After(m.db, e) && After(m.db, e)[VersionKey(resource)] !in m.used
            else Quiet(m.db, After(m.db, e), resource)
  {
  }

  /** The version is one that was not drawn before. */
  ghost predicate IsNewVersion(db: Database, used: set<string>, resource: string) {
    VersionKey(resource) in db && db[VersionKey(resource)] !in used
  }

  /** Nobody touched the resource between the moments. */
  ghost predicate Rests(h: seq<Moment>, es: seq<Event>, i: nat, j: nat, resource: string)
    requires |h| == |es| + 1 && i <= j < |h|
  {
    && (forall k :: i <= k <= j ==> Quiet(h[i].db, h[k].db, resource))
    && (forall k :: i <= k < j ==> !Touches(h[k].db, es[k], resource))
  }

  lemma RestsLonger(h: seq<Moment>, es: seq<Event>, i: nat, j: nat, resource: string)
    requires |h| == |es| + 1 && i <= j < |es| && Rests(h, es, i, j, resource)
    requires !Touches(h[j].db, es[j], resource) && Quiet(h[j].db, h[j + 1].db, resource)
    ensures Rests(h, es, i, j + 1, resource)
  {
  }

  /** While nothing is lost, either nobody touches the resource or its version is one not drawn before. */
  lemma {:induction false} ResourceRestsOrVersionIsNew(h: seq<Moment>, es: seq<Event>, i: nat, j: nat, resource: string)
    requires IsRun(h, es) && i <= j < |h|
    requires forall k :: i <= k < j ==> !es[k].Lose?
    ensures IsNewVersion(h[j].db, h[i].used, resource) || Rests(h, es, i, j, resource)
    decreases j
  {
    if i < j {
      ResourceRestsOrVersionIsNew(h, es, i, j - 1, resource);
      UsedOnlyGrows(h, es, i, j - 1);
      TouchIsNew(h[j - 1], es[j - 1], resource);
      if Rests(h, es, i, j - 1, resource) && !Touches(h[j - 1].db, es[j - 1], resource) {
        RestsLonger(h, es, i, j - 1, resource);
      }
    }
  }

  function ClaimsFrom(db: Database, asset: string, file: string): (c: Claims)
    requires EpochKey in db
  {
    Claims(db[EpochKey], asset, Version(db, asset), file, Version(db, file))
  }

  /** Nothing happened between moments i and j that concerns the two resources. */
  ghost predicate Undisturbed(h: seq<Moment>, es: seq<Event>, i: nat, j: nat, asset: string, file: string)
    requires |h| == |es| + 1 && i <= j < |h|
  {
    && (forall k :: i <= k <= j ==>
          SameAt(h[i].db, h[k].db, EpochKey) && Quiet(h[i].db, h[k].db, asset) && Quiet(h[i].db, h[k].db, file))
    && (forall k :: i <= k < j ==> !Touches(h[k].db, es[k], asset) && !Touches(h[k].db, es[k], file))
  }

  /** Claims taken from a snapshot are accepted later exactly when it was not blocked and nothing happened since. */
  lemma AcceptedIffUndisturbed(h: seq<Moment>, es: seq<Event>, i: nat, j: nat, asset: string, file: string)
    requires IsRun(h, es) && i <= j < |h| && EpochKey in h[i].db
    ensures Accepts(h[j].db, ClaimsFrom(h[i].db, asset, file))
       <==> Blocked(h[i].db, asset) == "" && Blocked(h[i].db, file) == "" && Undisturbed(h, es, i, j, asset, file)
  {
    AlwaysKnown(h, es, i);
    AlwaysKnown(h, es, j);
    if Accepts(h[j].db, ClaimsFrom(h[i].db, asset, file)) {
      EpochStaysOrIsNew(h, es, i, j);
      ResourceRestsOrVersionIsNew(h, es, i, j, asset);
      ResourceRestsOrVersionIsNew(h, es, i, j, file);
    }
  }

  /** Freedom from touches alone is enough: the state can only change through them. */
  lemma {:induction false} UntouchedIsUndisturbed(h: seq<Moment>, es: seq<Event>, i: nat, j: nat, asset: string,
                                                  file: string)
    requires IsRun(h, es) && i <= j < |h| && EpochKey in h[i].db
    requires forall k :: i <= k < j ==> !Touches(h[k].db, es[k], asset) && !Touches(h[k].db, es[k], file)
    ensures Undisturbed(h, es, i, j, asset, file)
    decreases j
  {
    if i < j {
      UntouchedIsUndisturbed(h, es, i, j - 1, asset, file);
      assert h[j] == Next(h[j - 1], es[j - 1]);
    }
  }

  /** What was read while a writer was at work is never accepted. */
  lemma BlockedIsNeverAccepted(h: seq<Moment>, es: seq<Event>, i: nat, j: nat, asset: string, file: string)
    requires IsRun(h, es) && i <= j < |h| && EpochKey in h[i].db
    requires GuardKey(asset) in h[i].db || GuardKey(file) in h[i].db
    ensures !Accepts(h[j].db, ClaimsFrom(h[i].db, asset, file))
  {
    AcceptedIffUndisturbed(h, es, i, j, asset, file);
    AlwaysKnown(h, es, i);
  }

  // ---------- Writers ----------

  /** Nothing is lost from moment i to moment j. */
  ghost predicate NoLoss(es: seq<Event>, i: nat, j: nat)
    requires i <= j <= |es|
  {
    forall k :: i <= k < j ==> !es[k].Lose?
  }

  /** Two writers never hold one resource: the first has finished before the second begins. */
  lemma {:induction false} OneWriterAtATime(h: seq<Moment>, es: seq<Event>, a: nat, b: nat, resource: string)
    requires IsRun(h, es) && a < b < |es| && NoLoss(es, a, b)
    requires es[a].Begin? && es[a].resource == resource && Succeeds(h[a].db, es[a])
    requires es[b].Begin? && es[b].resource == resource && Succeeds(h[b].db, es[b])
    ensures exists k :: a < k < b && es[k].Finish? && es[k].resource == resource && es[k].token == es[a].token &&
                        Succeeds(h[k].db, es[k])
  {
    if forall k :: a < k < b ==>
         !(es[k].Finish? && es[k].resource == resource && es[k].token == es[a].token && Succeeds(h[k].db, es[k]))
    {
      GuardStaysUntilFinished(h, es, a, b);
      assert false;
    }
  }

  lemma {:induction false} GuardStaysUntilFinished(h: seq<Moment>, es: seq<Event>, a: nat, j: nat)
    requires IsRun(h, es) && a < j < |h| && NoLoss(es, a, j)
    requires es[a].Begin? && Succeeds(h[a].db, es[a])
    requires forall k :: a < k < j ==>
              !(es[k].Finish? && es[k].resource == es[a].resource && es[k].token == es[a].token &&
                Succeeds(h[k].db, es[k]))
    ensures GuardKey(es[a].resource) in h[j].db && h[j].db[GuardKey(es[a].resource)] in {es[a].token, DELETED}
    decreases j
  {
    assert h[a + 1] == Next(h[a], es[a]);
    if a + 1 < j {
      GuardStaysUntilFinished(h, es, a, j - 1);
      assert h[j] == Next(h[j - 1], es[j - 1]) && Allowed(h[j - 1].used, es[j - 1]);
    }
  }

  /** A token that was drawn and is not the guard never becomes the guard. */
  lemma {:induction false} SpentStaysSpent(h: seq<Moment>, es: seq<Event>, i: nat, j: nat, resource: string,
                                           token: string)
    requires IsRun(h, es) && i <= j < |h| && IsToken(token) && token in h[i].used
    requires !(GuardKey(resource) in h[i].db && h[i].db[GuardKey(resource)] == token)
    ensures !(GuardKey(resource) in h[j].db && h[j].db[GuardKey(resource)] == token)
    decreases j
  {
    if i < j {
      SpentStaysSpent(h, es, i, j - 1, resource, token);
      UsedOnlyGrows(h, es, i, j - 1);
      assert h[j] == Next(h[j - 1], es[j - 1]) && Allowed(h[j - 1].used, es[j - 1]);
    }
  }

  /** A writer finishes at most once, whatever is lost in between. */
  lemma FinishesOnce(h: seq<Moment>, es: seq<Event>, a: nat, b: nat)
    requires IsRun(h, es) && a < b < |es|
    requires es[a].Finish? && es[b].Finish? && es[a].resource == es[b].resource && es[a].token == es[b].token
    requires Succeeds(h[a].db, es[a])
    ensures !Succeeds(h[b].db, es[b])
  {
    AlwaysKnown(h, es, a);
    assert h[a + 1] == Next(h[a], es[a]) && Allowed(h[a].used, es[a]);
    assert |es[a].token| != |DELETED|;
    SpentStaysSpent(h, es, a + 1, b, es[a].resource, es[a].token);
  }

  /** After a revocation no claims on the resource are accepted and no writer gets in, until something is lost. */
  lemma {:induction false} RevokedForGood(h: seq<Moment>, es: seq<Event>, a: nat, j: nat)
    requires IsRun(h, es) && a < j < |h| && NoLoss(es, a, j)
    requires es[a].Revoke? && EpochKey in h[a].db
    ensures Blocked(h[j].db, es[a].resource) == DELETED
    ensures forall c: Claims :: c.asset == es[a].resource || c.file == es[a].resource ==> !Accepts(h[j].db, c)
    ensures forall token :: !Succeeds(h[j].db, Begin(es[a].resource, token))
    decreases j
  {
    assert h[a + 1] == Next(h[a], es[a]);
    if a + 1 < j {
      RevokedForGood(h, es, a, j - 1);
      assert h[j] == Next(h[j - 1], es[j - 1]) && Allowed(h[j - 1].used, es[j - 1]);
    }
  }

  /** Work on one resource leaves every other alone. */
  lemma OthersRest(db: Database, e: Event, resource: string)
    requires e.Begin? || e.Finish? || e.Revoke?
    requires e.resource != resource
    ensures Quiet(db, After(db, e), resource) && SameAt(db, After(db, e), EpochKey)
  {
  }

  /** Why the database must not evict: losing a single version revives claims from before a change. */
  lemma LosingOneVersionRevives(asset: string, file: string, e: string, t: string, n: string)
    requires asset != file && IsToken(t) && IsToken(n)
    ensures var db := map[EpochKey := e];
            var changed := After(After(db, Begin(asset, t)), Finish(asset, t, n));
            && !Accepts(changed, ClaimsFrom(db, asset, file))
            && Accepts(After(changed, Lose({VersionKey(asset)})), ClaimsFrom(db, asset, file))
  {
    var db := map[EpochKey := e];
    var changed := After(After(db, Begin(asset, t)), Finish(asset, t, n));
    assert changed[VersionKey(asset)] == n && |n| != |"0"|;
    assert GuardKey(file) !in changed && VersionKey(file) !in changed;
  }
}
