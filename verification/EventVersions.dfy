/**
  Event schema upgrades: a copy-on-write registry of upgrade steps, the bounded chain that brings an
  envelope to its latest schema, and the read view that upgrades pages of an event store.
 */
module EventVersions {
  import opened Prelude
  import opened EventLog

  const MAX_UPGRADE_STEPS: nat := 100

  /** One upgrade step; `upgrade` is the application's code and may fail. */
  datatype Upgrader = Upgrader(
    sourceType: string,
    targetType: string,
    sourceVersion: nat,
    targetVersion: nat,
    upgrade: Envelope -> Option<Envelope>)
  {
    predicate Valid() {
      sourceType != "" && targetType != "" && targetVersion > sourceVersion
    }

    predicate Accepts(messageType: string, version: nat) {
      sourceType == messageType && sourceVersion == version
    }
  }

  /** Upgraders by source type, each list in order of source version, and the highest target versions. */
  datatype Rules = Rules(upgraders: map<string, seq<Upgrader>>, currentVersions: map<string, nat>)

  const NO_RULES := Rules(map[], map[])

  datatype RegisterError = InvalidUpgrader | AlreadyRegistered

  function Find(list: seq<Upgrader>, version: nat): (r: Option<Upgrader>)
    ensures r.Some? ==> r.value in list && r.value.sourceVersion == version
    ensures r.None? ==> forall u :: u in list ==> u.sourceVersion != version
  {
    if list == [] then None
    else if list[0].sourceVersion == version then Some(list[0])
    else Find(list[1..], version)
  }

  function InsertSorted(list: seq<Upgrader>, u: Upgrader): seq<Upgrader> {
    if list == [] then [u]
    else if u.sourceVersion < list[0].sourceVersion then [u] + list
    else [list[0]] + InsertSorted(list[1..], u)
  }

  function ListOf(rules: Rules, sourceType: string): seq<Upgrader> {
    if sourceType in rules.upgraders then rules.upgraders[sourceType] else []
  }

  function Lookup(rules: Rules, messageType: string, version: nat): Option<Upgrader> {
    Find(ListOf(rules, messageType), version)
  }

  /** The highest registered target version of a type, or 1. */
  function CurrentVersion(rules: Rules, messageType: string): nat {
    if messageType in rules.currentVersions then rules.currentVersions[messageType] else 1
  }

  function Raise(versions: map<string, nat>, u: Upgrader): map<string, nat> {
    versions[u.targetType :=
      if u.targetType in versions then Max(versions[u.targetType], u.targetVersion) else u.targetVersion]
  }

  /** The rules with one more step, or why it is refused. */
  function Register(rules: Rules, u: Upgrader): Result<Rules, RegisterError> {
    if !u.Valid() then Err(InvalidUpgrader)
    else if Lookup(rules, u.sourceType, u.sourceVersion).Some? then Err(AlreadyRegistered)
    else Ok(Rules(
      rules.upgraders[u.sourceType := InsertSorted(ListOf(rules, u.sourceType), u)],
      Raise(rules.currentVersions, u)))
  }

  /** Registers several steps one after another. */
  function RegisterAll(us: seq<Upgrader>): Result<Rules, RegisterError> {
    if us == [] then Ok(NO_RULES)
    else
      match RegisterAll(us[..|us| - 1])
      case Err(e) => Err(e)
      case Ok(rules) => Register(rules, us[|us| - 1])
  }

  // ---------------------------------------------------------------------------------------------
  // Registration order does not matter.

  lemma {:induction false} FindInserted(list: seq<Upgrader>, u: Upgrader, version: nat)
    requires forall x :: x in list ==> x.sourceVersion != u.sourceVersion
    ensures Find(InsertSorted(list, u), version) == if version == u.sourceVersion then Some(u) else Find(list, version)
    decreases |list|
  {
    if list != [] {
      assert forall x :: x in list[1..] ==> x in list;
      FindInserted(list[1..], u, version);
      if u.sourceVersion < list[0].sourceVersion {
        assert ([u] + list)[1..] == list;
      } else {
        assert ([list[0]] + InsertSorted(list[1..], u))[1..] == InsertSorted(list[1..], u);
      }
    } else {
      assert [u][1..] == [];
    }
  }

  /** A successful registration changes the lookup of its own key and of no other. */
  lemma {:induction false} RegisterLookup(rules: Rules, u: Upgrader, messageType: string, version: nat)
    requires Register(rules, u).Ok?
    ensures Lookup(Register(rules, u).value, messageType, version)
      == if u.Accepts(messageType, version) then Some(u) else Lookup(rules, messageType, version)
  {
    FindInserted(ListOf(rules, u.sourceType), u, version);
  }

  /** The registered step for a key is the one in the list, whatever its place. */
  lemma {:induction false} LookupIsMembership(us: seq<Upgrader>, messageType: string, version: nat)
    requires RegisterAll(us).Ok?
    ensures var found := Lookup(RegisterAll(us).value, messageType, version);
      && (found.Some? ==> found.value in us && found.value.Accepts(messageType, version))
      && (found.None? ==> forall u :: u in us ==> !u.Accepts(messageType, version))
    decreases |us|
  {
    if us != [] {
      var front, last := us[..|us| - 1], us[|us| - 1];
      LookupIsMembership(front, messageType, version);
      RegisterLookup(RegisterAll(front).value, last, messageType, version);
      assert us == front + [last];
    }
  }

  ghost predicate SortedBySource(list: seq<Upgrader>) {
    forall i, j :: 0 <= i < j < |list| ==> list[i].sourceVersion < list[j].sourceVersion
  }

  ghost predicate Above(list: seq<Upgrader>, low: int) {
    forall i :: 0 <= i < |list| ==> list[i].sourceVersion > low
  }

  lemma ConsSorted(first: Upgrader, rest: seq<Upgrader>)
    requires SortedBySource(rest) && Above(rest, first.sourceVersion)
    ensures SortedBySource([first] + rest)
  {
  }

  lemma {:induction false} InsertKeepsSorted(list: seq<Upgrader>, u: Upgrader, low: int)
    requires SortedBySource(list) && Above(list, low) && u.sourceVersion > low
    requires forall i :: 0 <= i < |list| ==> list[i].sourceVersion != u.sourceVersion
    ensures SortedBySource(InsertSorted(list, u)) && Above(InsertSorted(list, u), low)
    decreases |list|
  {
    if list != [] {
      if u.sourceVersion < list[0].sourceVersion {
        ConsSorted(u, list);
      } else {
        InsertKeepsSorted(list[1..], u, list[0].sourceVersion);
        ConsSorted(list[0], InsertSorted(list[1..], u));
      }
    }
  }

  /** Every type's steps are kept in order of source version. */
  lemma {:induction false} ListsAreSorted(us: seq<Upgrader>, sourceType: string)
    requires RegisterAll(us).Ok?
    ensures SortedBySource(ListOf(RegisterAll(us).value, sourceType))
    decreases |us|
  {
    if us != [] {
      var front, last := us[..|us| - 1], us[|us| - 1];
      ListsAreSorted(front, sourceType);
      if last.sourceType == sourceType {
        var list := ListOf(RegisterAll(front).value, sourceType);
        assert forall i :: 0 <= i < |list| ==> list[i] in list;
        InsertKeepsSorted(list, last, -1);
      }
    }
  }

  /** Valid steps with pairwise different keys. */
  ghost predicate ConflictFree(us: seq<Upgrader>) {
    && (forall i :: 0 <= i < |us| ==> us[i].Valid())
    && (forall i, j :: 0 <= i < j < |us| ==> !us[i].Accepts(us[j].sourceType, us[j].sourceVersion))
  }

  lemma ConflictFreeSnoc(front: seq<Upgrader>, last: Upgrader)
    ensures ConflictFree(front + [last]) <==>
      ConflictFree(front) && last.Valid() && forall u :: u in front ==> !u.Accepts(last.sourceType, last.sourceVersion)
  {
    var us := front + [last];
    assert us[|front|] == last && forall i :: 0 <= i < |front| ==> us[i] == front[i];
    if ConflictFree(us) {
      forall u | u in front ensures !u.Accepts(last.sourceType, last.sourceVersion) {
        var i :| 0 <= i < |front| && front[i] == u;
        assert !us[i].Accepts(us[|front|].sourceType, us[|front|].sourceVersion);
      }
    }
  }

  lemma KeysAreUnique(us: seq<Upgrader>, a: Upgrader, b: Upgrader)
    requires ConflictFree(us) && a in us && b in us && a.Accepts(b.sourceType, b.sourceVersion)
    ensures a == b
  {
    var i :| 0 <= i < |us| && us[i] == a;
    var j :| 0 <= j < |us| && us[j] == b;
    assert us[i].Accepts(us[j].sourceType, us[j].sourceVersion) && us[j].Accepts(us[i].sourceType, us[i].sourceVersion);
  }

  /** Registration succeeds exactly for valid steps with pairwise different keys. */
  lemma {:induction false} RegisterAllSucceedsWhen(us: seq<Upgrader>)
    ensures RegisterAll(us).Ok? <==> ConflictFree(us)
    decreases |us|
  {
    if us != [] {
      var front, last := us[..|us| - 1], us[|us| - 1];
      RegisterAllSucceedsWhen(front);
      assert us == front + [last];
      ConflictFreeSnoc(front, last);
      if RegisterAll(front).Ok? {
        LookupIsMembership(front, last.sourceType, last.sourceVersion);
      }
    }
  }

  /** The steps that produce a type. */
  ghost predicate Produces(u: Upgrader, messageType: string) {
    u.targetType == messageType
  }

  /** A type's current version is the highest target among the steps that produce it. */
  ghost predicate IsHighest(us: seq<Upgrader>, messageType: string, versions: map<string, nat>) {
    && (messageType in versions <==> exists u :: u in us && Produces(u, messageType))
    && (messageType in versions ==>
          && (forall u :: u in us && Produces(u, messageType) ==> u.targetVersion <= versions[messageType])
          && (exists u :: u in us && Produces(u, messageType) && u.targetVersion == versions[messageType]))
  }

  lemma HighestAfterRaise(front: seq<Upgrader>, last: Upgrader, messageType: string, versions: map<string, nat>)
    requires IsHighest(front, messageType, versions)
    ensures IsHighest(front + [last], messageType, Raise(versions, last))
  {
    var us := front + [last];
    assert us[|front|] == last && last in us;
    if messageType in versions {
      var u :| u in front && Produces(u, messageType) && u.targetVersion == versions[messageType];
      assert u in us;
    }
    if last.targetType == messageType { assert Produces(last, messageType); }
  }

  lemma {:induction false} CurrentVersionIsHighest(us: seq<Upgrader>, messageType: string)
    requires RegisterAll(us).Ok?
    ensures IsHighest(us, messageType, RegisterAll(us).value.currentVersions)
    ensures (forall u :: u in us ==> !Produces(u, messageType)) ==>
      CurrentVersion(RegisterAll(us).value, messageType) == 1
    ensures forall u :: u in us && Produces(u, messageType) ==>
      u.targetVersion <= CurrentVersion(RegisterAll(us).value, messageType)
    decreases |us|
  {
    if us != [] {
      var front, last := us[..|us| - 1], us[|us| - 1];
      CurrentVersionIsHighest(front, messageType);
      assert us == front + [last];
      HighestAfterRaise(front, last, messageType, RegisterAll(front).value.currentVersions);
    }
  }

  /**
    Two conflict-free registrations of the same steps, in whatever orders, give the same lookups,
    the same current versions, and so the same upgrade of every envelope.
   */
  lemma {:induction false} OrderDoesNotMatter(us: seq<Upgrader>, vs: seq<Upgrader>, e: Envelope, messageType: string)
    requires RegisterAll(us).Ok? && RegisterAll(vs).Ok?
    requires forall u :: u in us <==> u in vs
    ensures CurrentVersion(RegisterAll(us).value, messageType) == CurrentVersion(RegisterAll(vs).value, messageType)
    ensures UpgradeToLatest(RegisterAll(us).value, e) == UpgradeToLatest(RegisterAll(vs).value, e)
  {
    CurrentVersionIsHighest(us, messageType);
    CurrentVersionIsHighest(vs, messageType);
    forall t, v ensures Lookup(RegisterAll(us).value, t, v) == Lookup(RegisterAll(vs).value, t, v) {
      SameLookup(us, vs, t, v);
    }
    SameChain(RegisterAll(us).value, RegisterAll(vs).value, e, MAX_UPGRADE_STEPS);
  }

  lemma SameLookup(us: seq<Upgrader>, vs: seq<Upgrader>, t: string, v: nat)
    requires RegisterAll(us).Ok? && RegisterAll(vs).Ok?
    requires forall u :: u in us <==> u in vs
    ensures Lookup(RegisterAll(us).value, t, v) == Lookup(RegisterAll(vs).value, t, v)
  {
    LookupIsMembership(us, t, v);
    LookupIsMembership(vs, t, v);
    RegisterAllSucceedsWhen(us);
    var a, b := Lookup(RegisterAll(us).value, t, v), Lookup(RegisterAll(vs).value, t, v);
    if a.Some? && b.Some? { KeysAreUnique(us, a.value, b.value); }
  }

  // ---------------------------------------------------------------------------------------------
  // The upgrade chain.

  datatype UpgradeError = UpgraderFailed | WrongTarget | ChainTooLong

  /** One link: nothing applies, the next envelope, or an error. */
  datatype Link = Latest | Upgraded(envelope: Envelope) | Broken(error: UpgradeError)

  function Advance(rules: Rules, e: Envelope): Link {
    match Lookup(rules, e.messageType, e.schemaVersion)
    case None => Latest
    case Some(u) =>
      match u.upgrade(e)
      case None => Broken(UpgraderFailed)
      case Some(next) =>
        if next.messageType != u.targetType || next.schemaVersion != u.targetVersion then Broken(WrongTarget)
        else Upgraded(next)
  }

  /**
    One link, by the registered steps: none accepts the envelope and it is the latest, or the one
    that does fails, or gives something other than its target, or gives the next envelope.
   */
  lemma {:induction false} LinkMeaning(us: seq<Upgrader>, e: Envelope)
    requires RegisterAll(us).Ok?
    ensures var link := Advance(RegisterAll(us).value, e);
      && (link.Latest? <==> forall u :: u in us ==> !u.Accepts(e.messageType, e.schemaVersion))
      && forall u :: u in us && u.Accepts(e.messageType, e.schemaVersion) ==>
           match u.upgrade(e)
           case None => link == Broken(UpgraderFailed)
           case Some(next) =>
             link == if next.messageType == u.targetType && next.schemaVersion == u.targetVersion
                     then Upgraded(next) else Broken(WrongTarget)
  {
    LookupIsMembership(us, e.messageType, e.schemaVersion);
    RegisterAllSucceedsWhen(us);
    var found := Lookup(RegisterAll(us).value, e.messageType, e.schemaVersion);
    forall u | u in us && u.Accepts(e.messageType, e.schemaVersion) ensures found == Some(u) {
      KeysAreUnique(us, u, found.value);
    }
  }

  /** The chain with a bound on the rounds left. */
  function Chain(rules: Rules, e: Envelope, rounds: nat): Result<Envelope, UpgradeError>
    decreases rounds
  {
    if rounds == 0 then Err(ChainTooLong)
    else
      match Advance(rules, e)
      case Latest => Ok(e)
      case Broken(error) => Err(error)
      case Upgraded(next) => Chain(rules, next, rounds - 1)
  }

  function UpgradeToLatest(rules: Rules, e: Envelope): Result<Envelope, UpgradeError> {
    Chain(rules, e, MAX_UPGRADE_STEPS)
  }

  lemma {:induction false} SameChain(a: Rules, b: Rules, e: Envelope, rounds: nat)
    requires forall t, v :: Lookup(a, t, v) == Lookup(b, t, v)
    ensures Chain(a, e, rounds) == Chain(b, e, rounds)
    decreases rounds
  {
    if rounds > 0 {
      assert Lookup(a, e.messageType, e.schemaVersion) == Lookup(b, e.messageType, e.schemaVersion);
      if Advance(a, e).Upgraded? { SameChain(a, b, Advance(a, e).envelope, rounds - 1); }
    }
  }

  /** Every link raises the schema version. */
  lemma {:induction false} LinkRaisesVersion(us: seq<Upgrader>, e: Envelope)
    requires RegisterAll(us).Ok? && Advance(RegisterAll(us).value, e).Upgraded?
    ensures Advance(RegisterAll(us).value, e).envelope.schemaVersion > e.schemaVersion
  {
    LookupIsMembership(us, e.messageType, e.schemaVersion);
    RegisterAllSucceedsWhen(us);
    var u := Lookup(RegisterAll(us).value, e.messageType, e.schemaVersion).value;
    var i :| 0 <= i < |us| && us[i] == u;
  }

  /** A finished chain is a fixpoint: nothing applies to its result, so upgrading it again changes nothing. */
  lemma {:induction false} LatestIsFixpoint(rules: Rules, e: Envelope, rounds: nat)
    requires Chain(rules, e, rounds).Ok?
    ensures Advance(rules, Chain(rules, e, rounds).value) == Latest
    ensures UpgradeToLatest(rules, Chain(rules, e, rounds).value) == Ok(Chain(rules, e, rounds).value)
    decreases rounds
  {
    if Advance(rules, e).Upgraded? { LatestIsFixpoint(rules, Advance(rules, e).envelope, rounds - 1); }
  }

  /** The envelope after `n` successful links, if there are that many. */
  function After(rules: Rules, e: Envelope, n: nat): Option<Envelope>
    decreases n
  {
    if n == 0 then Some(e)
    else
      match Advance(rules, e)
      case Upgraded(next) => After(rules, next, n - 1)
      case _ => None
  }

  /** The latest schema is reached after exactly `n` links. */
  predicate LatestAfter(rules: Rules, e: Envelope, n: nat) {
    After(rules, e, n).Some? && Advance(rules, After(rules, e, n).value) == Latest
  }

  /** The link after `n` good ones breaks with this error; none of the code's own errors is about length. */
  ghost predicate BreaksAfter(rules: Rules, e: Envelope, n: nat, error: UpgradeError) {
    After(rules, e, n).Some? && Advance(rules, After(rules, e, n).value) == Broken(error)
  }

  /** A chain ends at the latest envelope, at the error of the link that breaks, or where its rounds are used up. */
  lemma {:induction false} ChainOkExactlyWhen(rules: Rules, e: Envelope, rounds: nat)
    ensures Chain(rules, e, rounds).Ok? <==> exists n: nat :: n < rounds && LatestAfter(rules, e, n)
    ensures Chain(rules, e, rounds) == Err(ChainTooLong) <==> After(rules, e, rounds).Some?
    ensures Chain(rules, e, rounds).Ok? ==>
      exists n: nat :: LatestAfter(rules, e, n) && After(rules, e, n) == Some(Chain(rules, e, rounds).value)
    ensures Chain(rules, e, rounds).Err? && Chain(rules, e, rounds).error != ChainTooLong ==>
      exists n: nat :: BreaksAfter(rules, e, n, Chain(rules, e, rounds).error)
    decreases rounds
  {
    if rounds > 0 {
      match Advance(rules, e) {
        case Latest => assert LatestAfter(rules, e, 0);
        case Broken(error) =>
          assert BreaksAfter(rules, e, 0, error);
          forall n: nat ensures !LatestAfter(rules, e, n) { if n > 0 { assert After(rules, e, n).None?; } }
        case Upgraded(next) =>
          ChainOkExactlyWhen(rules, next, rounds - 1);
          forall n: nat | n > 0 ensures LatestAfter(rules, e, n) <==> LatestAfter(rules, next, n - 1) { }
          forall n: nat | LatestAfter(rules, next, n)
            ensures LatestAfter(rules, e, n + 1) && After(rules, e, n + 1) == After(rules, next, n)
          {
          }
          forall n: nat, error | BreaksAfter(rules, next, n, error) ensures BreaksAfter(rules, e, n + 1, error) { }
      }
    }
  }

  /**
    An upgrade succeeds exactly when the latest schema is fewer than 100 links away and no link on
    the way breaks; a chain of exactly 100 good links is refused although it arrives.
   */
  lemma {:induction false} UpgradeSucceedsExactlyWhen(rules: Rules, e: Envelope)
    ensures UpgradeToLatest(rules, e).Ok? <==> exists n: nat :: n < 100 && LatestAfter(rules, e, n)
    ensures LatestAfter(rules, e, 100) ==> UpgradeToLatest(rules, e) == Err(ChainTooLong)
    ensures UpgradeToLatest(rules, e).Ok? ==>
      exists n: nat :: LatestAfter(rules, e, n) && After(rules, e, n) == Some(UpgradeToLatest(rules, e).value)
  {
    ChainOkExactlyWhen(rules, e, 100);
  }

  /** The n-th step of the plain chain: from version n to n + 1 of one type. */
  function PlainStep(n: nat): Upgrader {
    Upgrader("t", "t", n, n + 1, (e: Envelope) => Some(e.(schemaVersion := e.schemaVersion + 1)))
  }

  function PlainChain(length: nat): (us: seq<Upgrader>)
    ensures |us| == length && forall i :: 0 <= i < length ==> us[i] == PlainStep(i)
  {
    seq(length, i requires 0 <= i < length => PlainStep(i))
  }

  lemma {:induction false} PlainChainRegisters(length: nat)
    ensures RegisterAll(PlainChain(length)).Ok?
  {
    assert ConflictFree(PlainChain(length));
    RegisterAllSucceedsWhen(PlainChain(length));
  }

  /** The rules move this payload of type "t" one version at a time, up to `length`. */
  ghost predicate MovesPlainly(rules: Rules, length: nat, payload: seq<int>) {
    forall v: nat :: MovesFrom(rules, length, payload, v)
  }

  ghost predicate MovesFrom(rules: Rules, length: nat, payload: seq<int>, v: nat) {
    Advance(rules, Envelope("t", v, payload)) == if v < length then Upgraded(Envelope("t", v + 1, payload)) else Latest
  }

  lemma {:induction false} PlainAdvance(length: nat, e: Envelope)
    requires RegisterAll(PlainChain(length)).Ok? && e.messageType == "t"
    ensures Advance(RegisterAll(PlainChain(length)).value, e)
      == if e.schemaVersion < length then Upgraded(e.(schemaVersion := e.schemaVersion + 1)) else Latest
  {
    var us, v := PlainChain(length), e.schemaVersion;
    var found := Lookup(RegisterAll(us).value, "t", v);
    LookupIsMembership(us, "t", v);
    if v < length { assert us[v] == PlainStep(v) && us[v].Accepts("t", v); }
    if found.Some? {
      var i :| 0 <= i < |us| && us[i] == found.value;
      assert found.value == PlainStep(v);
    }
  }

  lemma {:induction false} PlainAfter(rules: Rules, length: nat, payload: seq<int>, v: nat, n: nat)
    requires MovesPlainly(rules, length, payload) && v + n <= length
    ensures After(rules, Envelope("t", v, payload), n) == Some(Envelope("t", v + n, payload))
    decreases n
  {
    if n > 0 {
      assert MovesFrom(rules, length, payload, v);
      PlainAfter(rules, length, payload, v + 1, n - 1);
    }
  }

  /**
    Such chains exist: a hundred registrable steps, one version each, lead from version 0 to the
    latest schema, and the upgrade is refused; from version 1 on it succeeds.
   */
  lemma {:induction false} HundredStepsAreRefused(payload: seq<int>)
    ensures RegisterAll(PlainChain(100)).Ok?
    ensures var rules := RegisterAll(PlainChain(100)).value;
      && LatestAfter(rules, Envelope("t", 0, payload), 100)
      && UpgradeToLatest(rules, Envelope("t", 0, payload)) == Err(ChainTooLong)
      && UpgradeToLatest(rules, Envelope("t", 1, payload)).Ok?
  {
    PlainChainRegisters(100);
    forall v: nat ensures MovesFrom(RegisterAll(PlainChain(100)).value, 100, payload, v) {
      PlainAdvance(100, Envelope("t", v, payload));
    }
    PlainRefusal(RegisterAll(PlainChain(100)).value, payload, 100);
  }

  /** With as many rounds as the chain is long, the chain is refused from its start, but not from its second version. */
  lemma {:induction false} PlainRefusal(rules: Rules, payload: seq<int>, length: nat)
    requires MovesPlainly(rules, length, payload) && length > 0
    ensures LatestAfter(rules, Envelope("t", 0, payload), length)
    ensures Chain(rules, Envelope("t", 0, payload), length) == Err(ChainTooLong)
    ensures Chain(rules, Envelope("t", 1, payload), length).Ok?
  {
    PlainAfter(rules, length, payload, 0, length);
    PlainAfter(rules, length, payload, 1, length - 1);
    assert MovesFrom(rules, length, payload, length);
    ChainOkExactlyWhen(rules, Envelope("t", 0, payload), length);
    ChainOkExactlyWhen(rules, Envelope("t", 1, payload), length);
    assert LatestAfter(rules, Envelope("t", 1, payload), length - 1);
  }

  lemma {:induction false} LinksRaiseVersion(us: seq<Upgrader>, e: Envelope, n: nat)
    requires RegisterAll(us).Ok? && After(RegisterAll(us).value, e, n).Some?
    ensures After(RegisterAll(us).value, e, n).value.schemaVersion >= e.schemaVersion + n
    ensures n > 0 ==> exists u :: u in us && u.targetVersion >= e.schemaVersion + n
    decreases n
  {
    if n > 0 {
      var rules := RegisterAll(us).value;
      var next := Advance(rules, e).envelope;
      LinkRaisesVersion(us, e);
      LinksRaiseVersion(us, next, n - 1);
      LookupIsMembership(us, e.messageType, e.schemaVersion);
      assert Lookup(rules, e.messageType, e.schemaVersion).value in us;
    }
  }

  /** Versions rise at every link, so steps that stay below a hundred versions ahead never exceed the bound. */
  lemma {:induction false} ShortSchemasNeverTooLong(us: seq<Upgrader>, e: Envelope)
    requires RegisterAll(us).Ok? && forall u :: u in us ==> u.targetVersion < e.schemaVersion + 100
    ensures UpgradeToLatest(RegisterAll(us).value, e) != Err(ChainTooLong)
  {
    ChainOkExactlyWhen(RegisterAll(us).value, e, 100);
    if After(RegisterAll(us).value, e, 100).Some? { LinksRaiseVersion(us, e, 100); }
  }

  /** The chain as the code runs it. */
  method UpgradeEnvelope(rules: Rules, e: Envelope) returns (r: Result<Envelope, UpgradeError>)
    ensures r == UpgradeToLatest(rules, e)
    ensures r.Ok? ==> Lookup(rules, r.value.messageType, r.value.schemaVersion).None?
  {
    var event := e;
    for i := 0 to MAX_UPGRADE_STEPS
      invariant Chain(rules, event, MAX_UPGRADE_STEPS - i) == UpgradeToLatest(rules, e)
    {
      var u := Lookup(rules, event.messageType, event.schemaVersion);
      if u.None? { return Ok(event); }
      var upgraded := u.value.upgrade(event);
      if upgraded.None? { return Err(UpgraderFailed); }
      if upgraded.value.messageType != u.value.targetType || upgraded.value.schemaVersion != u.value.targetVersion {
        return Err(WrongTarget);
      }
      event := upgraded.value;
    }
    return Err(ChainTooLong);
  }

  // ---------------------------------------------------------------------------------------------
  // Concurrent registration.

  /** A registrar between its load and its swap; `stamp` identifies the copy it loaded. */
  datatype Pending = Pending(upgrader: Upgrader, seen: Rules, stamp: nat)

  datatype Registry = Registry(rules: Rules, stamp: nat, pending: map<nat, Pending>, registered: seq<Upgrader>)

  datatype Step = LoadRules(thread: nat, upgrader: Upgrader) | SwapRules(thread: nat)

  function Next(r: Registry, step: Step): Registry {
    match step
    case LoadRules(t, u) => r.(pending := r.pending[t := Pending(u, r.rules, r.stamp)])
    case SwapRules(t) =>
      if t !in r.pending then r
      else
        var p := r.pending[t];
        var idle := r.(pending := r.pending - {t});
        match Register(p.seen, p.upgrader)
        case Err(_) => idle
        case Ok(next) =>
          if p.stamp != r.stamp then idle
          else idle.(rules := next, stamp := r.stamp + 1, registered := r.registered + [p.upgrader])
  }

  function Run(r: Registry, steps: seq<Step>): Registry
    decreases |steps|
  {
    if steps == [] then r else Run(Next(r, steps[0]), steps[1..])
  }

  ghost predicate RegistryOk(r: Registry) {
    && RegisterAll(r.registered) == Ok(r.rules)
    && forall t :: t in r.pending ==>
         r.pending[t].stamp <= r.stamp && (r.pending[t].stamp == r.stamp ==> r.pending[t].seen == r.rules)
  }

  /**
    However registrations interleave, none is lost: the shared rules are those of registering the
    successful steps one after another in the order of their swaps.
   */
  lemma {:induction false} ConcurrentRegistersAreSerial(r: Registry, steps: seq<Step>)
    requires RegistryOk(r)
    ensures RegistryOk(Run(r, steps)) && r.registered <= Run(r, steps).registered
    decreases |steps|
  {
    if steps != [] {
      NextKeepsRegistry(r, steps[0]);
      ConcurrentRegistersAreSerial(Next(r, steps[0]), steps[1..]);
    }
  }

  lemma {:induction false} NextKeepsRegistry(r: Registry, step: Step)
    requires RegistryOk(r)
    ensures RegistryOk(Next(r, step)) && r.registered <= Next(r, step).registered
  {
    if step.SwapRules? && step.thread in r.pending {
      var u := r.pending[step.thread].upgrader;
      assert (r.registered + [u])[..|r.registered|] == r.registered;
    }
  }

  /** A registration that nobody interrupts succeeds exactly for a valid step whose key is free. */
  lemma {:induction false} RegisterAlone(r: Registry, t: nat, u: Upgrader)
    requires RegistryOk(r)
    ensures var r' := Next(Next(r, LoadRules(t, u)), SwapRules(t));
      && r'.registered ==
         (if u.Valid() && (forall v :: v in r.registered ==> !v.Accepts(u.sourceType, u.sourceVersion))
          then r.registered + [u] else r.registered)
      && (r'.registered == r.registered ==> r'.rules == r.rules && r'.stamp == r.stamp)
  {
    LookupIsMembership(r.registered, u.sourceType, u.sourceVersion);
    var loaded := Next(r, LoadRules(t, u));
    assert loaded.pending[t] == Pending(u, r.rules, r.stamp);
  }

  /** The registry object: `register` while other registrars swap the shared rules. */
  class EventVersionRegistry {
    var rules: Rules
    var stamp: nat
    var registered: seq<Upgrader>

    ghost predicate Valid()
      reads this
    {
      RegisterAll(registered) == Ok(rules)
    }

    constructor ()
      ensures Valid() && |registered| == 0
    {
      rules, stamp, registered := NO_RULES, 0, [];
    }

    /** Any number of swaps by others; a swap installs a new copy. */
    method OthersRegister()
      requires Valid()
      modifies this
      ensures Valid() && old(registered) <= registered && old(stamp) <= stamp
      ensures stamp == old(stamp) ==> rules == old(rules) && registered == old(registered)
      ensures stamp != old(stamp) ==> |registered| > |old(registered)|
    {
      assert registered + [] == registered;
      var more: seq<Upgrader> :| RegisterAll(registered + more).Ok?;
      if |more| > 0 {
        registered, stamp := registered + more, stamp + 1;
        rules := RegisterAll(registered).value;
      }
    }

    /**
      Registers one step, trying again when another registrar got in first. It fails only for an
      invalid step or a key that is already taken; when it reports success the step is registered,
      and nothing registered before or meanwhile is lost.
     */
    method RegisterUpgrader(u: Upgrader, tries: nat) returns (r: Result<bool, RegisterError>)
      requires Valid()
      modifies this
      ensures Valid() && old(registered) <= registered
      ensures r == Err(InvalidUpgrader) <==>
        u.sourceType == "" || u.targetType == "" || u.targetVersion <= u.sourceVersion
      ensures r == Err(AlreadyRegistered) ==>
        exists other :: other in registered && other.Accepts(u.sourceType, u.sourceVersion)
      ensures r == Ok(true) ==> u in registered[|old(registered)|..]
      ensures r == Ok(false) && tries > 0 ==> |registered| > |old(registered)|
    {
      if !u.Valid() { return Err(InvalidUpgrader); }
      for attempt := 0 to tries
        invariant Valid() && old(registered) <= registered
        invariant attempt > 0 ==> |registered| > |old(registered)|
      {
        var current, loaded := rules, stamp;
        if Lookup(current, u.sourceType, u.sourceVersion).Some? {
          LookupIsMembership(registered, u.sourceType, u.sourceVersion);
          return Err(AlreadyRegistered);
        }
        var next := Register(current, u).value;
        ghost var before := registered;
        OthersRegister();
        if stamp == loaded {
          assert (registered + [u])[..|registered|] == registered;
          rules, stamp, registered := next, stamp + 1, registered + [u];
          assert registered[|before|] == u && registered[|old(registered)|..][|before| - |old(registered)|] == u;
          return Ok(true);
        }
      }
      return Ok(false);
    }
  }

  // ---------------------------------------------------------------------------------------------
  // The read view.

  predicate HasUpgraders(rules: Rules, messageType: string) {
    messageType in rules.upgraders
  }

  function UpgradeEvent(rules: Rules, e: StoredEvent): Result<StoredEvent, UpgradeError> {
    if !HasUpgraders(rules, e.envelope.messageType) then Ok(e)
    else
      match UpgradeToLatest(rules, e.envelope)
      case Err(error) => Err(error)
      case Ok(envelope) => Ok(StoredEvent(e.version, envelope, e.timestamp))
  }

  /** Upgrades every event, or stops at the first error. */
  function UpgradeAll(rules: Rules, events: seq<StoredEvent>): Result<seq<StoredEvent>, UpgradeError> {
    if events == [] then Ok([])
    else
      match UpgradeEvent(rules, events[0])
      case Err(error) => Err(error)
      case Ok(first) =>
        match UpgradeAll(rules, events[1..])
        case Err(error) => Err(error)
        case Ok(rest) => Ok([first] + rest)
  }

  /** The view's page: pages without upgradable events are passed through untouched. */
  function UpgradePage(rules: Rules, p: Page): Result<Page, UpgradeError> {
    if !(exists i :: 0 <= i < |p.events| && HasUpgraders(rules, p.events[i].envelope.messageType)) then Ok(p)
    else
      match UpgradeAll(rules, p.events)
      case Err(error) => Err(error)
      case Ok(events) => Ok(Page(events, p.next))
  }

  /** The plain meaning of the view on one event: the latest envelope at the same version and time. */
  predicate IsLatestOf(rules: Rules, before: StoredEvent, after: StoredEvent) {
    && UpgradeToLatest(rules, before.envelope) == Ok(after.envelope)
    && after.version == before.version && after.timestamp == before.timestamp
  }

  lemma UntouchedIsLatest(rules: Rules, e: StoredEvent)
    requires !HasUpgraders(rules, e.envelope.messageType)
    ensures IsLatestOf(rules, e, e)
  {
    assert Lookup(rules, e.envelope.messageType, e.envelope.schemaVersion) == None;
    assert Advance(rules, e.envelope) == Latest;
  }

  ghost predicate FailsFirstAt(rules: Rules, events: seq<StoredEvent>, k: nat, error: UpgradeError)
    requires k < |events|
  {
    && UpgradeToLatest(rules, events[k].envelope) == Err(error)
    && forall i :: 0 <= i < k ==> UpgradeToLatest(rules, events[i].envelope).Ok?
  }

  ghost predicate FirstErrorIs(rules: Rules, events: seq<StoredEvent>, error: UpgradeError) {
    exists k :: 0 <= k < |events| && FailsFirstAt(rules, events, k, error)
  }

  lemma {:induction false} UpgradeAllMeaning(rules: Rules, events: seq<StoredEvent>)
    ensures UpgradeAll(rules, events).Ok? <==>
      forall i :: 0 <= i < |events| ==> UpgradeToLatest(rules, events[i].envelope).Ok?
    ensures UpgradeAll(rules, events).Ok? ==>
      && |UpgradeAll(rules, events).value| == |events|
      && forall i :: 0 <= i < |events| ==> IsLatestOf(rules, events[i], UpgradeAll(rules, events).value[i])
    ensures UpgradeAll(rules, events).Err? ==> FirstErrorIs(rules, events, UpgradeAll(rules, events).error)
    decreases |events|
  {
    if events != [] {
      if !HasUpgraders(rules, events[0].envelope.messageType) { UntouchedIsLatest(rules, events[0]); }
      UpgradeAllMeaning(rules, events[1..]);
      if UpgradeToLatest(rules, events[0].envelope).Ok? && UpgradeAll(rules, events[1..]).Err? {
        var error := UpgradeAll(rules, events[1..]).error;
        var k :| 0 <= k < |events| - 1 && FailsFirstAt(rules, events[1..], k, error);
        assert FailsFirstAt(rules, events, k + 1, error);
      } else if UpgradeToLatest(rules, events[0].envelope).Err? {
        assert FailsFirstAt(rules, events, 0, UpgradeToLatest(rules, events[0].envelope).error);
      }
    }
  }

  /**
    The view keeps the number of events, their versions and timestamps, and the cursor, and brings
    each envelope to its latest schema; it fails exactly when some envelope cannot be upgraded, with
    the error of the first such. Its two shortcuts are invisible.
   */
  lemma {:induction false} ViewIsUpgradedPage(rules: Rules, p: Page)
    ensures UpgradePage(rules, p).Ok? <==>
      forall i :: 0 <= i < |p.events| ==> UpgradeToLatest(rules, p.events[i].envelope).Ok?
    ensures UpgradePage(rules, p).Ok? ==>
      && UpgradePage(rules, p).value.next == p.next
      && |UpgradePage(rules, p).value.events| == |p.events|
      && forall i :: 0 <= i < |p.events| ==> IsLatestOf(rules, p.events[i], UpgradePage(rules, p).value.events[i])
    ensures UpgradePage(rules, p).Err? ==> FirstErrorIs(rules, p.events, UpgradePage(rules, p).error)
  {
    if exists i :: 0 <= i < |p.events| && HasUpgraders(rules, p.events[i].envelope.messageType) {
      UpgradeAllMeaning(rules, p.events);
    } else {
      forall i | 0 <= i < |p.events| ensures IsLatestOf(rules, p.events[i], p.events[i]) {
        UntouchedIsLatest(rules, p.events[i]);
      }
    }
  }
}
