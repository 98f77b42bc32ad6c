/** What each operation of the online directory leads to, stated on sessions, sign-ins and slots
    alone, and how a session that comes and goes leaves no trace. */
module OnlineOutcomes {
  import opened Common
  import opened OnlineDirectories

  // ---------------------------------------------------------------- what is live at a time

  predicate Live(d: Directory, id: nat, now: nat) {
    id in d.sessions && d.sessions[id].expires > now
  }

  /** The live session a user is signed in with. */
  function SignedInAs(d: Directory, p: PlayerKey, now: nat): Option<nat> {
    if p in d.single && Live(d, d.single[p], now) then Some(d.single[p]) else None
  }

  /** The slots of a realm that live sessions hold. */
  function LiveSlots(d: Directory, r: Realm, now: nat): set<nat> {
    set id | id in Slots(d, r) && Live(d, id, now)
  }

  /** Both directories show the same live sessions, sign-ins and slots. */
  ghost predicate SameLive(a: Directory, b: Directory, now: nat) {
    && (forall id :: Live(a, id, now) <==> Live(b, id, now))
    && (forall id :: Live(a, id, now) ==> a.sessions[id] == b.sessions[id])
    && (forall p :: SignedInAs(a, p, now) == SignedInAs(b, p, now))
    && (forall r :: LiveSlots(a, r, now) == LiveSlots(b, r, now))
  }

  /** `a` holds exactly what is live in `d`. */
  ghost predicate Holds(a: Directory, d: Directory, now: nat) {
    && (forall id :: id in a.sessions <==> Live(d, id, now))
    && (forall id :: id in a.sessions ==> id in d.sessions && a.sessions[id] == d.sessions[id])
    && (forall p :: p in a.single <==> SignedInAs(d, p, now).Some?)
    && (forall p :: p in a.single ==> Some(a.single[p]) == SignedInAs(d, p, now))
    && (forall r :: Slots(a, r) == LiveSlots(d, r, now))
  }

  /** Expiry forgets exactly what is no longer live. */
  lemma PurgeExactly(d: Directory, now: nat)
    ensures Holds(Purge(d, now), d, now)
    ensures forall r :: r in Purge(d, now).capacity <==> LiveSlots(d, r, now) != {}
  {
    var after := Purge(d, now);
    var live := LiveSessions(d.sessions, now);
    forall r
      ensures Slots(after, r) == LiveSlots(d, r, now)
      ensures r in after.capacity <==> LiveSlots(d, r, now) != {}
    {
      assert Slots(d, r) * live.Keys == LiveSlots(d, r, now);
    }
  }

  lemma HoldsIsSame(a: Directory, d: Directory, now: nat, later: nat)
    requires Holds(a, d, now) && now <= later
    ensures SameLive(d, a, later)
  {
    forall p
      ensures SignedInAs(d, p, later) == SignedInAs(a, p, later)
    {
      assert p in a.single <==> SignedInAs(d, p, now).Some?;
    }
    forall r
      ensures LiveSlots(d, r, later) == LiveSlots(a, r, later)
    {
      assert Slots(a, r) == LiveSlots(d, r, now);
    }
  }

  // ---------------------------------------------------------------- admission

  /** The session that signing in would displace. */
  function Rival(d: Directory, lease: Lease, now: nat): Option<nat> {
    var current := SignedInAs(d, lease.player, now);
    if current == Some(lease.session) then None else current
  }

  /** The slots of the lease's realm that remain taken if it is admitted. */
  function SlotsLeft(d: Directory, lease: Lease, mode: DuplicateMode, now: nat): set<nat> {
    var slots, rival := LiveSlots(d, RealmOf(lease.player), now), Rival(d, lease, now);
    if mode == KickExisting && rival.Some? then slots - {rival.value} else slots
  }

  /** Admission is refused as a duplicate exactly when new logins are rejected and another live
      session is signed in as the user, and as full exactly when the slots that would remain
      taken reach the maximum. */
  lemma DecisionExactly(d: Directory, lease: Lease, policy: Policy, now: nat)
    ensures var decision := Decide(Purge(d, now), lease, policy);
            var rival := Rival(d, lease, now);
            var full := && policy.maximum.Some? && lease.session !in LiveSlots(d, RealmOf(lease.player), now)
                        && |SlotsLeft(d, lease, policy.mode, now)| >= policy.maximum.value;
            && (decision == Duplicate <==> policy.mode == RejectNew && rival.Some?)
            && (decision == RealmFull <==> !(policy.mode == RejectNew && rival.Some?) && full)
            && (decision.Accepted? ==> decision.previous == if policy.mode == KickExisting then rival else None)
  {
    hide Purge;
    PurgeExactly(d, now);
    var purged, r := Purge(d, now), RealmOf(lease.player);
    var rival := Rival(d, lease, now);
    assert Previous(purged, lease) == rival;
    assert Slots(purged, r) == LiveSlots(d, r, now);
    if TransfersSlot(purged, lease, policy.mode) {
      assert |LiveSlots(d, r, now) - {rival.value}| == |LiveSlots(d, r, now)| - 1;
    } else {
      assert SlotsLeft(d, lease, policy.mode, now) == LiveSlots(d, r, now);
    }
  }

  /** An accepted session is stored with its lease, holds a slot, and unless logins are shared is
      the one its user is signed in with; everything live of others stays, the displaced
      session's slot in that realm apart. */
  lemma AdmissionExactly(w: World, lease: Lease, policy: Policy, now: nat)
    requires ValidIdentity(lease) && ValidPolicy(policy)
    requires Decide(Purge(w.directory, now), lease, policy).Accepted?
    ensures var d, a := w.directory, WorldExec(w, AcquireStep(lease, policy, now)).directory;
            var realm := RealmOf(lease.player);
            && (forall id :: id in a.sessions <==> Live(d, id, now) || id == lease.session)
            && (forall id :: id in a.sessions ==>
                  a.sessions[id] == if id == lease.session then lease else d.sessions[id])
            && (forall p :: SignIn(a, p) ==
                  if p == lease.player && policy.mode != AllowMultiple then Some(lease.session)
                  else SignedInAs(d, p, now))
            && Slots(a, realm) == SlotsLeft(d, lease, policy.mode, now) + {lease.session}
            && (forall r :: r != realm ==> Slots(a, r) == LiveSlots(d, r, now))
  {
    hide Purge, Decide, TransfersSlot, SlotsLeft, SignedInAs, LiveSlots;
    PurgeExactly(w.directory, now);
    AdmittedSlots(w.directory, lease, policy.mode, now);
    hide Live;
  }

  function SignIn(d: Directory, p: PlayerKey): Option<nat> {
    if p in d.single then Some(d.single[p]) else None
  }

  lemma AdmittedSlots(d: Directory, lease: Lease, mode: DuplicateMode, now: nat)
    ensures var purged, realm := Purge(d, now), RealmOf(lease.player);
            Slots(Admit(purged, lease, mode), realm) == SlotsLeft(d, lease, mode, now) + {lease.session}
  {
    hide Purge;
    PurgeExactly(d, now);
    var purged, realm := Purge(d, now), RealmOf(lease.player);
    assert Previous(purged, lease) == Rival(d, lease, now);
    assert Slots(purged, realm) == LiveSlots(d, realm, now);
    if !TransfersSlot(purged, lease, mode) {
      assert SlotsLeft(d, lease, mode, now) == LiveSlots(d, realm, now);
    }
  }

  /** A refused admission changes nothing that is live. */
  lemma RefusalExactly(w: World, lease: Lease, policy: Policy, now: nat, later: nat)
    requires now <= later
    requires !ValidIdentity(lease) || !ValidPolicy(policy) || !Decide(Purge(w.directory, now), lease, policy).Accepted?
    ensures SameLive(w.directory, WorldExec(w, AcquireStep(lease, policy, now)).directory, later)
  {
    hide Purge, Decide, Holds;
    PurgeExactly(w.directory, now);
    HoldsIsSame(Purge(w.directory, now), w.directory, now, later);
  }

  // ---------------------------------------------------------------- renewal

  /** A renewal replaces the lease exactly when its session is live at the same gateway, and
      touches neither sign-ins nor slots. */
  lemma RenewalExactly(w: World, lease: Lease, now: nat)
    requires ValidIdentity(lease)
    ensures var d, a := w.directory, WorldExec(w, RenewStep(lease, now)).directory;
            var may := Live(d, lease.session, now) && d.sessions[lease.session].gateway == lease.gateway;
            && (MayRenew(Purge(d, now), lease) <==> may)
            && (forall id :: id in a.sessions <==> Live(d, id, now))
            && (forall id :: id in a.sessions ==>
                  a.sessions[id] == if may && id == lease.session then lease else d.sessions[id])
            && (forall p :: SignIn(a, p) == SignedInAs(d, p, now))
            && (forall r :: Slots(a, r) == LiveSlots(d, r, now))
  {
    hide Purge;
    PurgeExactly(w.directory, now);
  }

  // ---------------------------------------------------------------- unregistration

  /** Unregistering from the gateway that holds the session removes the session, its slot in the
      lease's realm and its user's sign-in, and nothing else. From anywhere else, or when the
      session is gone, it changes nothing. */
  lemma UnregisterExactly(w: World, lease: Lease)
    ensures var d, n := w.directory, WorldExec(w, UnregisterStep(lease));
            var a, realm := n.directory, RealmOf(lease.player);
            var held := lease.session in d.sessions && d.sessions[lease.session].gateway == lease.gateway;
            && n.kicked == w.kicked
            && (!held ==> a == d)
            && (held ==>
                  && (forall id :: id in a.sessions <==> id in d.sessions && id != lease.session)
                  && (forall id :: id in a.sessions ==> a.sessions[id] == d.sessions[id])
                  && (forall id :: id in Slots(a, realm) <==> id in Slots(d, realm) && id != lease.session)
                  && (forall r :: r != realm ==> Slots(a, r) == Slots(d, r))
                  && (forall p :: p in a.single <==>
                        p in d.single && !(p == lease.player && d.single[p] == lease.session))
                  && (forall p :: p in a.single ==> a.single[p] == d.single[p]))
  {
  }

  /** Whoever the lease names, an unregistered session holds no slot and no sign-in anywhere once
      the directory is next looked at. */
  lemma UnregisteredIsGone(w: World, lease: Lease, now: nat)
    requires lease.session in w.directory.sessions
    requires w.directory.sessions[lease.session].gateway == lease.gateway
    ensures var a := WorldExec(WorldExec(w, UnregisterStep(lease)), QueryStep(now)).directory;
            && lease.session !in a.sessions
            && (forall r :: lease.session !in Slots(a, r))
            && (forall p :: p in a.single ==> a.single[p] != lease.session)
  {
    hide Purge;
    var d := WorldExec(w, UnregisterStep(lease)).directory;
    PurgeExactly(d, now);
  }

  // ---------------------------------------------------------------- come and gone

  /** Directories that show the same live things decide the same. */
  lemma SameLiveSameDecision(a: Directory, b: Directory, now: nat, lease: Lease, policy: Policy)
    requires SameLive(a, b, now)
    ensures Decide(Purge(a, now), lease, policy) == Decide(Purge(b, now), lease, policy)
  {
    hide Purge, Decide;
    var r := RealmOf(lease.player);
    assert LiveSlots(a, r, now) == LiveSlots(b, r, now);
    assert SignedInAs(a, lease.player, now) == SignedInAs(b, lease.player, now);
    DecisionExactly(a, lease, policy, now);
    DecisionExactly(b, lease, policy, now);
  }

  lemma AcceptedAndGone(w: World, lease: Lease, policy: Policy, now: nat)
    requires !Live(w.directory, lease.session, now) && SignedInAs(w.directory, lease.player, now).None?
    requires ValidIdentity(lease) && ValidPolicy(policy)
    requires Decide(Purge(w.directory, now), lease, policy).Accepted?
    ensures var visited := WorldExec(WorldExec(w, AcquireStep(lease, policy, now)), UnregisterStep(lease));
            Holds(visited.directory, w.directory, now)
  {
    hide Purge, Decide, WorldExec;
    var d := w.directory;
    var acquired := WorldExec(w, AcquireStep(lease, policy, now));
    AdmissionExactly(w, lease, policy, now);
    UnregisterExactly(acquired, lease);
    var a := WorldExec(acquired, UnregisterStep(lease)).directory;
    forall r
      ensures Slots(a, r) == LiveSlots(d, r, now)
    {
    }
    forall p
      ensures p in a.single <==> SignedInAs(d, p, now).Some?
      ensures p in a.single ==> Some(a.single[p]) == SignedInAs(d, p, now)
    {
      assert SignIn(acquired.directory, p).Some? <==> p in acquired.directory.single;
    }
  }

  lemma RefusedAndGone(w: World, lease: Lease, policy: Policy, now: nat)
    requires !Live(w.directory, lease.session, now)
    requires ValidIdentity(lease) && ValidPolicy(policy) && !Decide(Purge(w.directory, now), lease, policy).Accepted?
    ensures var visited := WorldExec(WorldExec(w, AcquireStep(lease, policy, now)), UnregisterStep(lease));
            Holds(visited.directory, w.directory, now)
  {
    hide Purge, Decide;
    PurgeExactly(w.directory, now);
  }

  /** A session that was not there, of a user who was not signed in, acquired and unregistered with
      one lease, leaves the directory showing what it showed, then and later. */
  lemma ComeAndGone(w: World, lease: Lease, policy: Policy, now: nat, later: nat)
    requires now <= later && ValidIdentity(lease) && ValidPolicy(policy)
    requires !Live(w.directory, lease.session, now) && SignedInAs(w.directory, lease.player, now).None?
    ensures var visited := WorldExec(WorldExec(w, AcquireStep(lease, policy, now)), UnregisterStep(lease));
            SameLive(w.directory, visited.directory, later)
  {
    hide Purge, Decide, WorldExec, SameLive, Holds;
    var visited := WorldExec(WorldExec(w, AcquireStep(lease, policy, now)), UnregisterStep(lease));
    if Decide(Purge(w.directory, now), lease, policy).Accepted? {
      AcceptedAndGone(w, lease, policy, now);
    } else {
      RefusedAndGone(w, lease, policy, now);
    }
    HoldsIsSame(visited.directory, w.directory, now, later);
  }

  /** Hence whoever comes next is admitted exactly when they would have been before. */
  lemma NextIsAdmittedAsBefore(
      w: World, lease: Lease, policy: Policy, now: nat, next: Lease, nextPolicy: Policy, later: nat)
    requires now <= later && ValidIdentity(lease) && ValidPolicy(policy)
    requires !Live(w.directory, lease.session, now) && SignedInAs(w.directory, lease.player, now).None?
    ensures var visited := WorldExec(WorldExec(w, AcquireStep(lease, policy, now)), UnregisterStep(lease));
            Decide(Purge(visited.directory, later), next, nextPolicy) ==
            Decide(Purge(w.directory, later), next, nextPolicy)
  {
    hide WorldExec, Purge, Decide, SameLive;
    ComeAndGone(w, lease, policy, now, later);
    var visited := WorldExec(WorldExec(w, AcquireStep(lease, policy, now)), UnregisterStep(lease));
    SameLiveSameDecision(w.directory, visited.directory, later, next, nextPolicy);
  }
}
