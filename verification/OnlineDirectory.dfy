/** The in-memory online directory: session leases, one-login-per-user index and realm slots,
    changed by atomic admission, renewal, unregistration and expiry. */
module OnlineDirectories {
  import opened Common

  datatype Realm = Realm(region: nat, realm: nat)

  /** Sessions are named by number. Of the identity, admission looks at the player key; account
      and generation are only validated. */
  datatype Lease = Lease(
    session: nat, gateway: string, player: PlayerKey, account: int, generation: nat, expires: nat)

  predicate ValidIdentity(lease: Lease) {
    ValidPlayer(lease.player) && 0 < lease.account && lease.generation != 0
  }

  datatype DuplicateMode = AllowMultiple | RejectNew | KickExisting

  datatype Policy = Policy(mode: DuplicateMode, maximum: Option<nat>)

  datatype Admission = Accepted(previous: Option<nat>) | Duplicate | RealmFull

  datatype DirectoryError = InvalidIdentity | InvalidPolicy | SessionRevoked

  datatype Directory = Directory(sessions: map<nat, Lease>, single: map<PlayerKey, nat>, capacity: map<Realm, set<nat>>)

  function RealmOf(p: PlayerKey): Realm {
    Realm(p.region, p.realm)
  }

  function Slots(d: Directory, r: Realm): set<nat> {
    if r in d.capacity then d.capacity[r] else {}
  }

  // ---------------------------------------------------------------- operations

  function LiveSessions(sessions: map<nat, Lease>, now: nat): map<nat, Lease> {
    map id | id in sessions && sessions[id].expires > now :: sessions[id]
  }

  function Purge(d: Directory, now: nat): Directory {
    var live := LiveSessions(d.sessions, now);
    Directory(
      live,
      map p | p in d.single && d.single[p] in live :: d.single[p],
      map r | r in d.capacity && d.capacity[r] * live.Keys != {} :: d.capacity[r] * live.Keys)
  }

  /** Another session already signed in as this user. */
  function Previous(d: Directory, lease: Lease): Option<nat> {
    if lease.player in d.single && d.single[lease.player] != lease.session then Some(d.single[lease.player]) else None
  }

  predicate TransfersSlot(d: Directory, lease: Lease, mode: DuplicateMode) {
    mode == KickExisting && Previous(d, lease).Some? && Previous(d, lease).value in Slots(d, RealmOf(lease.player))
  }

  predicate Full(d: Directory, lease: Lease, policy: Policy) {
    var slots := Slots(d, RealmOf(lease.player));
    && lease.session !in slots
    && policy.maximum.Some?
    && SatSub(|slots|, if TransfersSlot(d, lease, policy.mode) then 1 else 0) >= policy.maximum.value
  }

  /** What admission decides on a purged directory. */
  function Decide(d: Directory, lease: Lease, policy: Policy): Admission {
    var previous := Previous(d, lease);
    if policy.mode == RejectNew && previous.Some? then Duplicate
    else if Full(d, lease, policy) then RealmFull
    else Accepted(if policy.mode == KickExisting then previous else None)
  }

  function Admit(d: Directory, lease: Lease, mode: DuplicateMode): Directory {
    var r := RealmOf(lease.player);
    var kept := if TransfersSlot(d, lease, mode) then Slots(d, r) - {Previous(d, lease).value} else Slots(d, r);
    Directory(
      d.sessions[lease.session := lease],
      if mode == AllowMultiple then d.single else d.single[lease.player := lease.session],
      d.capacity[r := kept + {lease.session}])
  }

  predicate ValidPolicy(p: Policy) {
    p.maximum != Some(0)
  }

  /** The directory after an acquisition that was not refused outright. */
  function AfterAcquire(d: Directory, lease: Lease, policy: Policy, now: nat): Directory {
    var purged := Purge(d, now);
    if Decide(purged, lease, policy).Accepted? then Admit(purged, lease, policy.mode) else purged
  }

  predicate MayRenew(d: Directory, lease: Lease) {
    lease.session in d.sessions && d.sessions[lease.session].gateway == lease.gateway
  }

  function AfterRenew(d: Directory, lease: Lease, now: nat): Directory {
    var purged := Purge(d, now);
    if MayRenew(purged, lease) then purged.(sessions := purged.sessions[lease.session := lease]) else purged
  }

  function AfterUnregister(d: Directory, lease: Lease): Directory {
    if !MayRenew(d, lease) then d
    else
      var r := RealmOf(lease.player);
      Directory(
        d.sessions - {lease.session},
        if lease.player in d.single && d.single[lease.player] == lease.session then d.single - {lease.player}
            else d.single,
        if r in d.capacity then d.capacity[r := d.capacity[r] - {lease.session}] else d.capacity)
  }

  method RetainIds(ids: set<nat>, live: set<nat>) returns (kept: set<nat>)
    ensures kept == ids * live
  {
    kept := ids;
    var todo := ids;
    while todo != {}
      invariant todo <= kept <= ids
      invariant forall id :: id in ids && id !in todo ==> (id in kept <==> id in live)
      decreases |todo|
    {
      var id :| id in todo;
      if id !in live {
        kept := kept - {id};
      }
      todo := todo - {id};
    }
  }

  class MemoryOnlineDirectory {
    var sessions: map<nat, Lease>
    var single: map<PlayerKey, nat>
    var capacity: map<Realm, set<nat>>

    function View(): Directory
      reads this
    {
      Directory(sessions, single, capacity)
    }

    constructor ()
      ensures View() == Directory(map[], map[], map[])
    {
      sessions, single, capacity := map[], map[], map[];
    }

    method RetainSessions(now: nat)
      modifies this`sessions
      ensures sessions == LiveSessions(old(sessions), now)
    {
      var todo := sessions.Keys;
      while todo != {}
        invariant todo <= sessions.Keys <= old(sessions).Keys
        invariant forall id :: id in sessions ==> sessions[id] == old(sessions)[id]
        invariant forall id :: id in old(sessions) && id !in todo ==>
          (id in sessions <==> old(sessions)[id].expires > now)
        decreases |todo|
      {
        var id :| id in todo;
        if sessions[id].expires <= now {
          sessions := sessions - {id};
        }
        todo := todo - {id};
      }
    }

    method RetainSingle(live: set<nat>)
      modifies this`single
      ensures single == map p | p in old(single) && old(single)[p] in live :: old(single)[p]
    {
      var todo := single.Keys;
      while todo != {}
        invariant todo <= single.Keys <= old(single).Keys
        invariant forall p :: p in single ==> single[p] == old(single)[p]
        invariant forall p :: p in old(single) && p !in todo ==> (p in single <==> old(single)[p] in live)
        decreases |todo|
      {
        var p :| p in todo;
        if single[p] !in live {
          single := single - {p};
        }
        todo := todo - {p};
      }
    }

    method RetainCapacity(live: set<nat>)
      modifies this`capacity
      ensures capacity == map r | r in old(capacity) && old(capacity)[r] * live != {} :: old(capacity)[r] * live
    {
      var todo := capacity.Keys;
      while todo != {}
        invariant todo <= capacity.Keys <= old(capacity).Keys
        invariant forall r :: r in todo ==> capacity[r] == old(capacity)[r]
        invariant forall r :: r in old(capacity) && r !in todo ==>
          (r in capacity <==> old(capacity)[r] * live != {})
        invariant forall r :: r in capacity && r !in todo ==> capacity[r] == old(capacity)[r] * live
        decreases |todo|
      {
        var r :| r in todo;
        var ids := RetainIds(capacity[r], live);
        capacity := if ids == {} then capacity - {r} else capacity[r := ids];
        todo := todo - {r};
      }
    }

    /** Drops the expired leases, then everything that refers to them. */
    method PurgeExpired(now: nat)
      modifies this
      ensures View() == Purge(old(View()), now)
    {
      RetainSessions(now);
      var live := sessions.Keys;
      RetainSingle(live);
      RetainCapacity(live);
    }

    method Acquire(lease: Lease, policy: Policy, now: nat) returns (r: Result<Admission, DirectoryError>)
      modifies this
      ensures r == Err(InvalidIdentity) <==>
              || lease.player.region == 0 || lease.player.realm == 0 || lease.player.user <= 0
              || lease.account <= 0 || lease.generation == 0
      ensures r == Err(InvalidPolicy) <==> ValidIdentity(lease) && policy.maximum == Some(0)
      ensures !ValidIdentity(lease) ==> r == Err(InvalidIdentity) && View() == old(View())
      ensures ValidIdentity(lease) && !ValidPolicy(policy) ==> r == Err(InvalidPolicy) && View() == old(View())
      ensures ValidIdentity(lease) && ValidPolicy(policy) ==>
                r == Ok(Decide(Purge(old(View()), now), lease, policy))
                    && View() == AfterAcquire(old(View()), lease, policy, now)
    {
      hide Purge;
      if !ValidIdentity(lease) {
        return Err(InvalidIdentity);
      }
      if policy.maximum == Some(0) {
        return Err(InvalidPolicy);
      }
      PurgeExpired(now);
      var user, realm := lease.player, RealmOf(lease.player);
      var previous: Option<nat> := None;
      if user in single && single[user] != lease.session {
        previous := Some(single[user]);
      }
      if policy.mode == RejectNew && previous.Some? {
        return Ok(Duplicate);
      }
      var slots := if realm in capacity then capacity[realm] else {};
      var transfers := policy.mode == KickExisting && previous.Some? && previous.value in slots;
      var used := SatSub(|slots|, if transfers then 1 else 0);
      if lease.session !in slots && policy.maximum.Some? && used >= policy.maximum.value {
        return Ok(RealmFull);
      }
      if policy.mode != AllowMultiple {
        single := single[user := lease.session];
      }
      if transfers {
        slots := slots - {previous.value};
      }
      capacity := capacity[realm := slots + {lease.session}];
      sessions := sessions[lease.session := lease];
      r := Ok(Accepted(if policy.mode == KickExisting then previous else None));
    }

    method Renew(lease: Lease, now: nat) returns (r: Result<(), DirectoryError>)
      modifies this
      ensures !ValidIdentity(lease) ==> r == Err(InvalidIdentity) && View() == old(View())
      ensures ValidIdentity(lease) ==> View() == AfterRenew(old(View()), lease, now)
      ensures ValidIdentity(lease) ==>
          r == if MayRenew(Purge(old(View()), now), lease) then Ok(()) else Err(SessionRevoked)
    {
      if !ValidIdentity(lease) {
        return Err(InvalidIdentity);
      }
      PurgeExpired(now);
      if lease.session in sessions && sessions[lease.session].gateway == lease.gateway {
        sessions := sessions[lease.session := lease];
        return Ok(());
      }
      r := Err(SessionRevoked);
    }

    method Unregister(lease: Lease)
      modifies this
      ensures View() == AfterUnregister(old(View()), lease)
      ensures !MayRenew(old(View()), lease) ==> View() == old(View())
      ensures MayRenew(old(View()), lease) ==>
                && sessions == old(sessions) - {lease.session}
                && lease.session !in Slots(View(), RealmOf(lease.player))
                && (lease.player in single ==> single[lease.player] != lease.session)
    {
      if lease.session in sessions && sessions[lease.session].gateway == lease.gateway {
        sessions := sessions - {lease.session};
        var realm := RealmOf(lease.player);
        if realm in capacity {
          capacity := capacity[realm := capacity[realm] - {lease.session}];
        }
        if lease.player in single && single[lease.player] == lease.session {
          single := single - {lease.player};
        }
      }
    }

    method Find(id: nat, now: nat) returns (r: Option<Lease>)
      modifies this
      ensures View() == Purge(old(View()), now)
      ensures r.Some? ==> r.value.expires > now
      ensures r == if id in old(sessions) && old(sessions)[id].expires > now then Some(old(sessions)[id]) else None
    {
      PurgeExpired(now);
      r := if id in sessions then Some(sessions[id]) else None;
    }
  }

  // ---------------------------------------------------------------- whole runs

  /** `kicked` are the sessions the directory has told gateways to disconnect and that have not
      been admitted again since. */
  datatype World = World(directory: Directory, kicked: set<nat>)

  datatype DirectoryStep =
    | AcquireStep(lease: Lease, policy: Policy, now: nat)
    | RenewStep(lease: Lease, now: nat)
    | UnregisterStep(lease: Lease)
    | QueryStep(now: nat)

  function WorldExec(w: World, step: DirectoryStep): World {
    match step
    case AcquireStep(lease, policy, now) =>
      if !ValidIdentity(lease) || !ValidPolicy(policy) then w
      else
        var decision := Decide(Purge(w.directory, now), lease, policy);
        World(AfterAcquire(w.directory, lease, policy, now),
              if !decision.Accepted? then w.kicked
              else w.kicked - {lease.session} + (if decision.previous.Some? then {decision.previous.value} else {}))
    case RenewStep(lease, now) =>
      if !ValidIdentity(lease) then w else w.(directory := AfterRenew(w.directory, lease, now))
    case UnregisterStep(lease) => w.(directory := AfterUnregister(w.directory, lease))
    case QueryStep(now) => w.(directory := Purge(w.directory, now))
  }

  function WorldRun(w: World, steps: seq<DirectoryStep>): World
    decreases |steps|
  {
    if steps == [] then w else WorldRun(WorldExec(w, steps[0]), steps[1..])
  }

  /** Renewals carry the identity the session signed in with. */
  predicate OwnIdentity(w: World, step: DirectoryStep) {
    step.RenewStep? && step.lease.session in w.directory.sessions ==>
      step.lease.player == w.directory.sessions[step.lease.session].player
  }

  predicate OwnRenewals(w: World, steps: seq<DirectoryStep>)
    decreases |steps|
  {
    steps == [] || (OwnIdentity(w, steps[0]) && OwnRenewals(WorldExec(w, steps[0]), steps[1..]))
  }

  /** Every admission to realm `r` rejects duplicate logins. */
  predicate Rejects(r: Realm, steps: seq<DirectoryStep>) {
    forall i :: 0 <= i < |steps| && steps[i].AcquireStep? && RealmOf(steps[i].lease.player) == r ==>
      steps[i].policy.mode == RejectNew
  }

  /** Every admission to realm `r` is decided under one maximum, in whatever mode. */
  predicate FixedMaximum(r: Realm, maximum: nat, steps: seq<DirectoryStep>) {
    forall i :: 0 <= i < |steps| && steps[i].AcquireStep? && RealmOf(steps[i].lease.player) == r ==>
      steps[i].policy.maximum == Some(maximum)
  }

  /** Every admission to realm `r` allows a user one login. */
  predicate OneLogin(r: Realm, steps: seq<DirectoryStep>) {
    forall i :: 0 <= i < |steps| && steps[i].AcquireStep? && RealmOf(steps[i].lease.player) == r ==>
      steps[i].policy.mode != AllowMultiple
  }

  const NOBODY: World := World(Directory(map[], map[], map[]), {})

  // ---------------------------------------------------------------- capacity

  ghost predicate SlotsInv(d: Directory, r: Realm, maximum: nat) {
    |Slots(d, r)| <= maximum
  }

  /** Whoever is signed in to the realm and was not kicked holds a slot there. */
  ghost predicate SeatedInv(w: World, r: Realm) {
    forall id :: id in w.directory.sessions && RealmOf(w.directory.sessions[id].player) == r && id !in w.kicked ==>
        id in Slots(w.directory, r)
  }

  lemma PurgeKeepsSlots(d: Directory, now: nat, r: Realm, maximum: nat)
    requires SlotsInv(d, r, maximum)
    ensures SlotsInv(Purge(d, now), r, maximum)
  {
    SubsetSize(Slots(Purge(d, now), r), Slots(d, r));
  }

  /** Admission never oversubscribes the realm, a kicked session's slot being handed on. */
  lemma AdmitKeepsSlots(d: Directory, lease: Lease, policy: Policy, r: Realm, maximum: nat)
    requires SlotsInv(d, r, maximum)
    requires RealmOf(lease.player) == r ==> policy.maximum == Some(maximum)
    requires Decide(d, lease, policy).Accepted?
    ensures SlotsInv(Admit(d, lease, policy.mode), r, maximum)
  {
    var after := Admit(d, lease, policy.mode);
    if RealmOf(lease.player) == r {
      var slots := Slots(d, r);
      if lease.session in slots {
        SubsetSize(Slots(after, r), slots);
      } else {
        assert |slots + {lease.session}| == |slots| + 1;
        if TransfersSlot(d, lease, policy.mode) {
          var previous := Previous(d, lease).value;
          assert |slots - {previous}| == |slots| - 1;
        }
      }
    } else {
      assert Slots(after, r) == Slots(d, r);
    }
  }

  lemma SlotsStep(w: World, step: DirectoryStep, r: Realm, maximum: nat)
    requires SlotsInv(w.directory, r, maximum)
    requires step.AcquireStep? && RealmOf(step.lease.player) == r ==> step.policy.maximum == Some(maximum)
    ensures SlotsInv(WorldExec(w, step).directory, r, maximum)
  {
    hide Decide, Admit, Purge;
    match step
    case AcquireStep(lease, policy, now) =>
      PurgeKeepsSlots(w.directory, now, r, maximum);
      var purged := Purge(w.directory, now);
      if Decide(purged, lease, policy).Accepted? {
        AdmitKeepsSlots(purged, lease, policy, r, maximum);
      }
    case RenewStep(lease, now) => PurgeKeepsSlots(w.directory, now, r, maximum);
    case UnregisterStep(lease) => SubsetSize(Slots(AfterUnregister(w.directory, lease), r), Slots(w.directory, r));
    case QueryStep(now) => PurgeKeepsSlots(w.directory, now, r, maximum);
  }

  lemma PurgeKeepsSeats(w: World, now: nat, r: Realm)
    requires SeatedInv(w, r)
    ensures SeatedInv(w.(directory := Purge(w.directory, now)), r)
  {
    var after := Purge(w.directory, now);
    forall id | id in after.sessions && RealmOf(after.sessions[id].player) == r && id !in w.kicked
      ensures id in Slots(after, r)
    {
      assert id in Slots(w.directory, r);
      assert id in w.directory.capacity[r] * after.sessions.Keys;
    }
  }

  lemma AcquireKeepsSeats(w: World, lease: Lease, policy: Policy, now: nat, r: Realm)
    requires SeatedInv(w, r)
    ensures SeatedInv(WorldExec(w, AcquireStep(lease, policy, now)), r)
  {
    hide Purge, Decide, Admit;
    PurgeKeepsSeats(w, now, r);
    var purged := Purge(w.directory, now);
    if Decide(purged, lease, policy).Accepted? {
      AdmitKeepsSeats(w.(directory := purged), lease, policy, r);
    }
  }

  /** Only a kicked session gives up its slot to the session admitted in its place. */
  lemma AdmitKeepsSeats(w: World, lease: Lease, policy: Policy, r: Realm)
    requires SeatedInv(w, r)
    requires Decide(w.directory, lease, policy).Accepted?
    ensures var previous := Decide(w.directory, lease, policy).previous;
            SeatedInv(World(Admit(w.directory, lease, policy.mode),
                w.kicked - {lease.session} + (if previous.Some? then {previous.value} else {})), r)
  {
    hide Full;
    var d, after := w.directory, Admit(w.directory, lease, policy.mode);
    var previous := Decide(d, lease, policy).previous;
    var kicked := w.kicked - {lease.session} + (if previous.Some? then {previous.value} else {});
    forall id | id in after.sessions && RealmOf(after.sessions[id].player) == r && id !in kicked
      ensures id in Slots(after, r)
    {
      if id != lease.session {
        assert id in Slots(d, r);
      }
    }
  }

  lemma SeatedStep(w: World, step: DirectoryStep, r: Realm)
    requires SeatedInv(w, r) && OwnIdentity(w, step)
    ensures SeatedInv(WorldExec(w, step), r)
  {
    match step
    case AcquireStep(lease, policy, now) => AcquireKeepsSeats(w, lease, policy, now, r);
    case RenewStep(lease, now) => PurgeKeepsSeats(w, now, r);
    case UnregisterStep(lease) =>
    case QueryStep(now) => PurgeKeepsSeats(w, now, r);
  }

  lemma {:induction false} SlotsRun(w: World, steps: seq<DirectoryStep>, r: Realm, maximum: nat)
    requires SlotsInv(w.directory, r, maximum) && FixedMaximum(r, maximum, steps)
    ensures SlotsInv(WorldRun(w, steps).directory, r, maximum)
    decreases |steps|
  {
    hide WorldExec, SlotsInv;
    if steps != [] {
      SlotsStep(w, steps[0], r, maximum);
      assert FixedMaximum(r, maximum, steps[1..]);
      SlotsRun(WorldExec(w, steps[0]), steps[1..], r, maximum);
    }
  }

  lemma {:induction false} SeatedRun(w: World, steps: seq<DirectoryStep>, r: Realm)
    requires SeatedInv(w, r) && OwnRenewals(w, steps)
    ensures SeatedInv(WorldRun(w, steps), r)
    decreases |steps|
  {
    hide WorldExec, SeatedInv, OwnIdentity;
    if steps != [] {
      SeatedStep(w, steps[0], r);
      SeatedRun(WorldExec(w, steps[0]), steps[1..], r);
    }
  }

  /** Over every run, expiry and foreign renewals included, in any mix of modes: the realm never
      grants more slots than its maximum. */
  lemma SlotsNeverExceed(steps: seq<DirectoryStep>, r: Realm, maximum: nat)
    requires FixedMaximum(r, maximum, steps)
    ensures |Slots(WorldRun(NOBODY, steps).directory, r)| <= maximum
  {
    SlotsRun(NOBODY, steps, r, maximum);
  }

  function SignedIn(w: World, r: Realm): set<nat> {
    set id | id in w.directory.sessions && RealmOf(w.directory.sessions[id].player) == r && id !in w.kicked
  }

  /** If renewals keep their identity, it also never has more sessions signed in than that, apart
      from those it told gateways to disconnect. */
  lemma RealmNeverOverfull(steps: seq<DirectoryStep>, r: Realm, maximum: nat)
    requires FixedMaximum(r, maximum, steps) && OwnRenewals(NOBODY, steps)
    ensures |SignedIn(WorldRun(NOBODY, steps), r)| <= maximum
  {
    SlotsNeverExceed(steps, r, maximum);
    SeatedRun(NOBODY, steps, r);
    var w := WorldRun(NOBODY, steps);
    SubsetSize(SignedIn(w, r), Slots(w.directory, r));
  }

  // ---------------------------------------------------------------- one session per user

  /** Every session of the realm is the one its user is signed in with. */
  ghost predicate SingleInv(d: Directory, r: Realm) {
    forall id :: id in d.sessions && RealmOf(d.sessions[id].player) == r ==>
      d.sessions[id].player in d.single && d.single[d.sessions[id].player] == id
  }

  lemma PurgeKeepsSingle(d: Directory, now: nat, r: Realm)
    requires SingleInv(d, r)
    ensures SingleInv(Purge(d, now), r)
  {
  }

  lemma AcquireKeepsSingle(d: Directory, lease: Lease, policy: Policy, now: nat, r: Realm)
    requires SingleInv(d, r)
    requires RealmOf(lease.player) == r ==> policy.mode == RejectNew
    ensures SingleInv(AfterAcquire(d, lease, policy, now), r)
  {
    PurgeKeepsSingle(d, now, r);
    hide Purge, Full;
  }

  lemma SingleStep(w: World, step: DirectoryStep, r: Realm)
    requires SingleInv(w.directory, r) && OwnIdentity(w, step)
    requires step.AcquireStep? && RealmOf(step.lease.player) == r ==> step.policy.mode == RejectNew
    ensures SingleInv(WorldExec(w, step).directory, r)
  {
    match step
    case AcquireStep(lease, policy, now) => AcquireKeepsSingle(w.directory, lease, policy, now, r);
    case RenewStep(lease, now) => PurgeKeepsSingle(w.directory, now, r);
    case UnregisterStep(lease) =>
    case QueryStep(now) => PurgeKeepsSingle(w.directory, now, r);
  }

  lemma {:induction false} SingleRun(w: World, steps: seq<DirectoryStep>, r: Realm)
    requires SingleInv(w.directory, r)
    requires OwnRenewals(w, steps) && Rejects(r, steps)
    ensures SingleInv(WorldRun(w, steps).directory, r)
    decreases |steps|
  {
    hide WorldExec, SingleInv, OwnIdentity;
    if steps != [] {
      SingleStep(w, steps[0], r);
      assert Rejects(r, steps[1..]);
      SingleRun(WorldExec(w, steps[0]), steps[1..], r);
    }
  }

  /** Over every run of a realm that rejects duplicates, no user has two sessions; session
      numbers may be reused and unregistrations may name anyone. */
  lemma NeverTwice(steps: seq<DirectoryStep>, r: Realm, a: nat, b: nat)
    requires OwnRenewals(NOBODY, steps) && Rejects(r, steps)
    ensures var sessions := WorldRun(NOBODY, steps).directory.sessions;
            (&& a in sessions && b in sessions
             && sessions[a].player == sessions[b].player && RealmOf(sessions[a].player) == r) ==> a == b
  {
    SingleRun(NOBODY, steps, r);
  }

  /** Every session of the realm that was not kicked is the one its user is signed in with. */
  ghost predicate SoleInv(w: World, r: Realm) {
    var d := w.directory;
    forall id :: id in d.sessions && RealmOf(d.sessions[id].player) == r && id !in w.kicked ==>
      d.sessions[id].player in d.single && d.single[d.sessions[id].player] == id
  }

  lemma PurgeKeepsSole(w: World, now: nat, r: Realm)
    requires SoleInv(w, r)
    ensures SoleInv(w.(directory := Purge(w.directory, now)), r)
  {
  }

  /** The session that loses its login is the one reported for disconnection. */
  lemma AdmitKeepsSole(w: World, lease: Lease, policy: Policy, r: Realm)
    requires SoleInv(w, r) && Decide(w.directory, lease, policy).Accepted?
    requires RealmOf(lease.player) == r ==> policy.mode != AllowMultiple
    ensures var previous := Decide(w.directory, lease, policy).previous;
            var kicked := w.kicked - {lease.session} + (if previous.Some? then {previous.value} else {});
            SoleInv(World(Admit(w.directory, lease, policy.mode), kicked), r)
  {
    hide Full, TransfersSlot;
    var d, after := w.directory, Admit(w.directory, lease, policy.mode);
    var previous := Decide(d, lease, policy).previous;
    var kicked := w.kicked - {lease.session} + (if previous.Some? then {previous.value} else {});
    forall id | id in after.sessions && RealmOf(after.sessions[id].player) == r && id !in kicked
      ensures after.sessions[id].player in after.single && after.single[after.sessions[id].player] == id
    {
      if id != lease.session {
        assert d.sessions[id].player in d.single && d.single[d.sessions[id].player] == id;
      }
    }
  }

  lemma SoleStep(w: World, step: DirectoryStep, r: Realm)
    requires SoleInv(w, r) && OwnIdentity(w, step)
    requires step.AcquireStep? && RealmOf(step.lease.player) == r ==> step.policy.mode != AllowMultiple
    ensures SoleInv(WorldExec(w, step), r)
  {
    match step
    case AcquireStep(lease, policy, now) =>
      hide Purge, Decide, Admit;
      PurgeKeepsSole(w, now, r);
      var purged := Purge(w.directory, now);
      if Decide(purged, lease, policy).Accepted? {
        AdmitKeepsSole(w.(directory := purged), lease, policy, r);
      }
    case RenewStep(lease, now) => PurgeKeepsSole(w, now, r);
    case UnregisterStep(lease) =>
    case QueryStep(now) => PurgeKeepsSole(w, now, r);
  }

  lemma {:induction false} SoleRun(w: World, steps: seq<DirectoryStep>, r: Realm)
    requires SoleInv(w, r) && OwnRenewals(w, steps) && OneLogin(r, steps)
    ensures SoleInv(WorldRun(w, steps), r)
    decreases |steps|
  {
    hide WorldExec, SoleInv, OwnIdentity;
    if steps != [] {
      SoleStep(w, steps[0], r);
      assert OneLogin(r, steps[1..]);
      SoleRun(WorldExec(w, steps[0]), steps[1..], r);
    }
  }

  /** Over every run of a realm that rejects duplicates or kicks, in any mix of the two, a user
      has at most one session that was not kicked. */
  lemma NeverTwiceUnkicked(steps: seq<DirectoryStep>, r: Realm, a: nat, b: nat)
    requires OwnRenewals(NOBODY, steps) && OneLogin(r, steps)
    ensures var w := WorldRun(NOBODY, steps);
            var sessions := w.directory.sessions;
            (&& a in sessions && b in sessions && a !in w.kicked && b !in w.kicked
             && sessions[a].player == sessions[b].player && RealmOf(sessions[a].player) == r) ==> a == b
  {
    SoleRun(NOBODY, steps, r);
  }

  /** Another unexpired session is signed in as this user. */
  ghost predicate SignedInElsewhere(sessions: map<nat, Lease>, lease: Lease, now: nat) {
    exists id :: id in sessions && id != lease.session && sessions[id].expires > now
        && sessions[id].player == lease.player
  }

  /** Renewal trusts the identity it is given. Where every user had one session, a renewal
      leaves the user it names with two if and only if that user is not the one this session
      signed in as and is signed in elsewhere. */
  lemma RenewalDuplicatesExactly(d: Directory, lease: Lease, now: nat)
    requires SingleInv(d, RealmOf(lease.player))
    requires MayRenew(Purge(d, now), lease)
    ensures var sessions := AfterRenew(d, lease, now).sessions;
            && sessions[lease.session] == lease
            && ((exists id :: id in sessions && id != lease.session && sessions[id].player == lease.player) <==>
                lease.player != d.sessions[lease.session].player && SignedInElsewhere(d.sessions, lease, now))
  {
    var sessions := AfterRenew(d, lease, now).sessions;
    forall id | id != lease.session
      ensures id in sessions <==> id in d.sessions && d.sessions[id].expires > now
      ensures id in sessions ==> sessions[id] == d.sessions[id]
    {
    }
    if id :| id in sessions && id != lease.session && sessions[id].player == lease.player {
      assert SignedInElsewhere(d.sessions, lease, now);
    }
    if SignedInElsewhere(d.sessions, lease, now) {
      var id :| id in d.sessions && id != lease.session && d.sessions[id].expires > now
          && d.sessions[id].player == lease.player;
      assert id in sessions;
    }
  }

  /** Signing a new user in where nothing has expired and nothing is limited. */
  lemma SignIn(w: World, lease: Lease, now: nat)
    requires ValidIdentity(lease) && lease.player !in w.directory.single && lease.session !in w.kicked
    requires Purge(w.directory, now) == w.directory
    ensures WorldExec(w, AcquireStep(lease, Policy(RejectNew, None), now)) ==
        w.(directory := Admit(w.directory, lease, RejectNew))
  {
    hide Purge;
  }

  lemma NothingExpired(d: Directory, now: nat)
    requires forall id :: id in d.sessions ==> d.sessions[id].expires > now
    requires forall p :: p in d.single ==> d.single[p] in d.sessions
    requires forall r :: r in d.capacity ==> d.capacity[r] != {} && d.capacity[r] <= d.sessions.Keys
    ensures Purge(d, now) == d
  {
    assert LiveSessions(d.sessions, now) == d.sessions;
    assert forall r :: r in d.capacity ==> d.capacity[r] * d.sessions.Keys == d.capacity[r];
    var after := Purge(d, now);
    assert after.single == d.single;
    assert after.capacity == d.capacity;
  }

  /** A renewal under somebody else's identity does give that user a second session. */
  lemma ForeignRenewalDuplicates(alice: Lease, bob: Lease)
    requires ValidIdentity(alice) && ValidIdentity(bob) && RealmOf(alice.player) == RealmOf(bob.player)
    requires alice.player != bob.player && alice.session != bob.session && 0 < alice.expires && 0 < bob.expires
    ensures var policy := Policy(RejectNew, None);
            var steps := [AcquireStep(alice, policy, 0), AcquireStep(bob, policy, 0),
                RenewStep(bob.(player := alice.player), 0)];
            var sessions := WorldRun(NOBODY, steps).directory.sessions;
            && Rejects(RealmOf(alice.player), steps)
            && alice.session in sessions && bob.session in sessions
            && sessions[alice.session].player == sessions[bob.session].player
  {
    var policy := Policy(RejectNew, None);
    var renew := RenewStep(bob.(player := alice.player), 0);
    var second, third := [AcquireStep(bob, policy, 0), renew], [renew];
    var steps := [AcquireStep(alice, policy, 0)] + second;
    assert steps == [AcquireStep(alice, policy, 0), AcquireStep(bob, policy, 0), renew];
    assert steps[1..] == second && second[1..] == third && third[1..] == [];
    NothingExpired(NOBODY.directory, 0);
    SignIn(NOBODY, alice, 0);
    var w1 := WorldExec(NOBODY, steps[0]);
    NothingExpired(w1.directory, 0);
    SignIn(w1, bob, 0);
    var w2 := WorldExec(w1, second[0]);
    NothingExpired(w2.directory, 0);
    hide Purge;
    var w3 := WorldExec(w2, renew);
    assert w3.directory.sessions == w2.directory.sessions[bob.session := bob.(player := alice.player)];
    hide WorldExec;
    assert WorldRun(w3, []) == w3;
    assert WorldRun(w2, third) == w3;
    assert WorldRun(w1, second) == w3;
    assert WorldRun(NOBODY, steps) == w3;
  }
}
