/** Breakpoint sites: reference counts and lifetimes, over any run. */
module Sites {

  datatype Lifetime = Lifetime(permanent: bool, oneShot: bool, untilHit: bool)

  const NONE := Lifetime(false, false, false)
  const PERMANENT := Lifetime(true, false, false)
  const TEMPORARY_ONE_SHOT := Lifetime(false, true, false)
  const TEMPORARY_UNTIL_HIT := Lifetime(false, false, true)

  function Or(a: Lifetime, b: Lifetime): Lifetime {
    Lifetime(a.permanent || b.permanent, a.oneShot || b.oneShot, a.untilHit || b.untilHit)
  }

  datatype Mode = Mode(exec: bool, read: bool, write: bool)

  const EXEC := Mode(true, false, false)
  const READ := Mode(false, true, false)
  const WRITE := Mode(false, false, true)
  const READ_WRITE := Mode(false, true, true)

  datatype Address = Unset | At(value: nat)

  datatype ErrorCode = Success | NotFound | InvalidArgument | Unsupported | Failed

  datatype Site = Site(refs: int, address: nat, lifetime: Lifetime, mode: Mode, size: nat)

  type SiteMap = map<nat, Site>

  // ---------------------------------------------------------------------------
  // What the operations do to the sites
  // ---------------------------------------------------------------------------

  /** `created` tells the manager to patch the new site if it is enabled. */
  datatype Added = Added(sites: SiteMap, error: ErrorCode, created: bool)

  function AddSite(sites: SiteMap, a: nat, lifetime: Lifetime, size: nat, mode: Mode): Added {
    var one := if lifetime == PERMANENT then 1 else 0;
    if a in sites then
      var site := sites[a];
      if site.mode != mode then Added(sites, InvalidArgument, false)
      else Added(sites[a := site.(lifetime := Or(site.lifetime, lifetime), refs := site.refs + one)], Success, false)
    else Added(sites[a := Site(one, a, lifetime, mode, size)], Success, true)
  }

  /** `erased` tells the manager to restore the site if it is enabled; `asserts`
      is whether the source's assertions on `refs` hold on the way. */
  datatype Removed = Removed(sites: SiteMap, error: ErrorCode, erased: bool, asserts: bool)

  function RemoveSite(sites: SiteMap, a: nat): Removed {
    if a !in sites then Removed(sites, NotFound, false, true)
    else
      var site := sites[a];
      if !site.lifetime.permanent then Removed(sites - {a}, Success, true, site.refs == 0)
      else if site.refs - 1 > 0 then
        Removed(sites[a := site.(refs := site.refs - 1)], Success, false, true)
      else if site.lifetime == PERMANENT then
        Removed(sites - {a}, Success, true, site.refs > 0 && site.refs - 1 == 0)
      else
        var rest := site.lifetime.(permanent := false);
        Removed(sites[a := site.(refs := site.refs - 1, lifetime := rest)], Success, false, site.refs > 0)
  }

  function HitSite(sites: SiteMap, a: nat): SiteMap {
    if a in sites then sites[a := sites[a].(lifetime := sites[a].lifetime.(untilHit := false))] else sites
  }

  function WithoutOneShot(site: Site): Site {
    site.(lifetime := site.lifetime.(oneShot := false))
  }

  /** The end of `disable`: one-shot flags go, and sites left with no lifetime. */
  function Expire(sites: SiteMap): SiteMap {
    map a | a in sites && WithoutOneShot(sites[a]).lifetime != NONE :: WithoutOneShot(sites[a])
  }

  /** The assertion made of each site erased there. */
  predicate ExpireAsserts(sites: SiteMap) {
    forall a <- sites :: WithoutOneShot(sites[a]).lifetime == NONE ==> sites[a].refs == 0
  }

  // ---------------------------------------------------------------------------
  // References and the permanent flag
  // ---------------------------------------------------------------------------

  predicate RefsInv(sites: SiteMap) {
    forall a <- sites :: sites[a].address == a && sites[a].refs >= 0 && (sites[a].lifetime.permanent <==> sites[a].refs > 0)
  }

  /** A lifetime that mixes Permanent with something else sets the flag without
      counting a reference. Adding keeps flag and count in step exactly when the
      lifetime is not such a mix, or the site is already counted, or refused. */
  lemma AddKeepsRefs(sites: SiteMap, a: nat, lifetime: Lifetime, size: nat, mode: Mode)
    requires RefsInv(sites)
    ensures RefsInv(AddSite(sites, a, lifetime, size, mode).sites)
       <==> (lifetime.permanent ==> lifetime == PERMANENT || (a in sites && (sites[a].refs > 0 || sites[a].mode != mode)))
  {
    var after := AddSite(sites, a, lifetime, size, mode).sites;
    assert a in after;
    assert forall b <- after :: b != a ==> after[b] == sites[b];
  }

  lemma RemoveKeepsRefs(sites: SiteMap, a: nat)
    requires RefsInv(sites)
    ensures RefsInv(RemoveSite(sites, a).sites) && RemoveSite(sites, a).asserts
  {
  }

  lemma ExpireKeepsRefs(sites: SiteMap)
    requires RefsInv(sites)
    ensures RefsInv(Expire(sites)) && ExpireAsserts(sites)
  {
  }

  // ---------------------------------------------------------------------------
  // Runs
  // ---------------------------------------------------------------------------

  datatype SiteOp =
    | AddTo(a: nat, lifetime: Lifetime, size: nat, mode: Mode)
    | RemoveFrom(a: nat)
    | HitAt(a: nat)
    | DisableAll
    | ClearAll

  function ApplySite(sites: SiteMap, op: SiteOp): SiteMap {
    match op
    case AddTo(a, lifetime, size, mode) => AddSite(sites, a, lifetime, size, mode).sites
    case RemoveFrom(a) => RemoveSite(sites, a).sites
    case HitAt(a) => HitSite(sites, a)
    case DisableAll => Expire(sites)
    case ClearAll => map[]
  }

  /** The source's assertions in this operation hold. */
  predicate Asserts(sites: SiteMap, op: SiteOp) {
    match op
    case RemoveFrom(a) => RemoveSite(sites, a).asserts
    case DisableAll => ExpireAsserts(sites)
    case _ => true
  }

  /** The sites after the first `n` operations. */
  function SitesAfter(sites: SiteMap, ops: seq<SiteOp>, n: nat): SiteMap
    requires n <= |ops|
  {
    if n == 0 then sites else ApplySite(SitesAfter(sites, ops, n - 1), ops[n - 1])
  }

  /** Callers pass one flag at a time. */
  predicate SingleFlags(ops: seq<SiteOp>) {
    forall i :: 0 <= i < |ops| && ops[i].AddTo? && ops[i].lifetime.permanent ==> ops[i].lifetime == PERMANENT
  }

  /** In every run a site is permanent exactly when it is referenced, and no
      assertion on references fails. */
  lemma {:induction false} RunKeepsRefs(sites: SiteMap, ops: seq<SiteOp>, n: nat)
    requires RefsInv(sites) && SingleFlags(ops) && n <= |ops|
    ensures RefsInv(SitesAfter(sites, ops, n))
    ensures n < |ops| ==> Asserts(SitesAfter(sites, ops, n), ops[n])
  {
    if n > 0 {
      RunKeepsRefs(sites, ops, n - 1);
      var before, op := SitesAfter(sites, ops, n - 1), ops[n - 1];
      match op {
        case AddTo(a, lifetime, size, mode) => AddKeepsRefs(before, a, lifetime, size, mode);
        case RemoveFrom(a) => RemoveKeepsRefs(before, a);
        case DisableAll => ExpireKeepsRefs(before);
        case _ =>
      }
    }
    var now := SitesAfter(sites, ops, n);
    if n < |ops| {
      match ops[n] {
        case RemoveFrom(a) => RemoveKeepsRefs(now, a);
        case DisableAll => ExpireKeepsRefs(now);
        case _ =>
      }
    }
  }

  /** Permanent adds of `a` in this mode among the first n operations, less its
      removals. */
  function Balance(ops: seq<SiteOp>, a: nat, mode: Mode, n: nat): int
    requires n <= |ops|
  {
    if n == 0 then 0
    else
      Balance(ops, a, mode, n - 1) +
      match ops[n - 1]
      case AddTo(b, lifetime, _, m) => if b == a && m == mode && lifetime == PERMANENT then 1 else 0
      case RemoveFrom(b) => if b == a then -1 else 0
      case _ => 0
  }

  /** While a site lives, its count is the permanent adds since it was created that
      no removal has matched. */
  lemma {:induction false} RefsAreUnmatchedAdds(sites: SiteMap, ops: seq<SiteOp>, a: nat, n: nat)
    requires a !in sites && 0 < n <= |ops|
    requires forall k {:trigger SitesAfter(sites, ops, k)} :: 0 < k <= n ==> a in SitesAfter(sites, ops, k)
    ensures ops[0].AddTo? && SitesAfter(sites, ops, n)[a].mode == ops[0].mode
    ensures SitesAfter(sites, ops, n)[a].refs == Balance(ops, a, ops[0].mode, n)
  {
    assert a in SitesAfter(sites, ops, n);
    if n == 1 {
      assert SitesAfter(sites, ops, 0) == sites;
      assert Balance(ops, a, ops[0].mode, 0) == 0;
    } else {
      RefsAreUnmatchedAdds(sites, ops, a, n - 1);
    }
  }

  // ---------------------------------------------------------------------------
  // Temporary sites
  // ---------------------------------------------------------------------------

  /** Nothing in the run adds or removes the site itself. */
  predicate LeftAlone(ops: seq<SiteOp>, a: nat) {
    forall i :: 0 <= i < |ops| ==>
      ops[i] != ClearAll && !(ops[i].AddTo? && ops[i].a == a) && !(ops[i].RemoveFrom? && ops[i].a == a)
  }

  predicate WasDisabled(ops: seq<SiteOp>, n: nat)
    requires n <= |ops|
  {
    exists i :: 0 <= i < n && ops[i] == DisableAll
  }

  predicate WasHit(ops: seq<SiteOp>, a: nat, n: nat)
    requires n <= |ops|
  {
    exists i :: 0 <= i < n && ops[i] == HitAt(a)
  }

  predicate HitThenDisabled(ops: seq<SiteOp>, a: nat, n: nat)
    requires n <= |ops|
  {
    exists i, j :: 0 <= i < j < n && ops[i] == HitAt(a) && ops[j] == DisableAll
  }

  /** A one-shot site lives exactly until the first disable. */
  lemma {:induction false} OneShotLives(sites: SiteMap, ops: seq<SiteOp>, a: nat, n: nat)
    requires a in sites && sites[a].lifetime == TEMPORARY_ONE_SHOT && LeftAlone(ops, a) && n <= |ops|
    ensures a in SitesAfter(sites, ops, n) <==> !WasDisabled(ops, n)
    ensures a in SitesAfter(sites, ops, n) ==> SitesAfter(sites, ops, n)[a].lifetime == TEMPORARY_ONE_SHOT
  {
    if n > 0 {
      OneShotLives(sites, ops, a, n - 1);
      if WasDisabled(ops, n - 1) {
        var i :| 0 <= i < n - 1 && ops[i] == DisableAll;
        assert 0 <= i < n && ops[i] == DisableAll;
      }
    }
  }

  /** An until-hit site lives exactly until the first disable after its first hit. */
  lemma {:induction false} UntilHitLives(sites: SiteMap, ops: seq<SiteOp>, a: nat, n: nat)
    requires a in sites && sites[a].lifetime == TEMPORARY_UNTIL_HIT && LeftAlone(ops, a) && n <= |ops|
    ensures a in SitesAfter(sites, ops, n) <==> !HitThenDisabled(ops, a, n)
    ensures a in SitesAfter(sites, ops, n) ==>
              SitesAfter(sites, ops, n)[a].lifetime == if WasHit(ops, a, n) then NONE else TEMPORARY_UNTIL_HIT
  {
    if n > 0 {
      UntilHitLives(sites, ops, a, n - 1);
      HitThenDisabledStep(ops, a, n);
    }
  }

  lemma HitThenDisabledStep(ops: seq<SiteOp>, a: nat, n: nat)
    requires 0 < n <= |ops|
    ensures WasHit(ops, a, n) <==> WasHit(ops, a, n - 1) || ops[n - 1] == HitAt(a)
    ensures HitThenDisabled(ops, a, n) <==>
              HitThenDisabled(ops, a, n - 1) || (WasHit(ops, a, n - 1) && ops[n - 1] == DisableAll)
  {
    if WasHit(ops, a, n - 1) && ops[n - 1] == DisableAll {
      var i :| 0 <= i < n - 1 && ops[i] == HitAt(a);
      assert ops[n - 1] == DisableAll;
    }
  }

  // ---------------------------------------------------------------------------
  // A site's life from its history
  // ---------------------------------------------------------------------------

  predicate Adds(op: SiteOp, a: nat, mode: Mode) {
    op.AddTo? && op.a == a && op.mode == mode
  }

  /** A one-shot add of `a` in this mode that no disable has followed. */
  predicate OneShotDue(ops: seq<SiteOp>, a: nat, mode: Mode, n: nat)
    requires n <= |ops|
  {
    exists i :: 0 <= i < n && Adds(ops[i], a, mode) && ops[i].lifetime.oneShot && forall j :: i < j < n ==> ops[j] != DisableAll
  }

  /** An until-hit add that no hit has followed. */
  predicate HitDue(ops: seq<SiteOp>, a: nat, mode: Mode, n: nat)
    requires n <= |ops|
  {
    exists i :: 0 <= i < n && Adds(ops[i], a, mode) && ops[i].lifetime.untilHit && forall j :: i < j < n ==> ops[j] != HitAt(a)
  }

  lemma OneShotStep(ops: seq<SiteOp>, a: nat, mode: Mode, n: nat)
    requires 0 < n <= |ops|
    ensures OneShotDue(ops, a, mode, n) <==>
              || (Adds(ops[n - 1], a, mode) && ops[n - 1].lifetime.oneShot)
              || (OneShotDue(ops, a, mode, n - 1) && ops[n - 1] != DisableAll)
  {
    if Adds(ops[n - 1], a, mode) && ops[n - 1].lifetime.oneShot {
      assert 0 <= n - 1 < n && Adds(ops[n - 1], a, mode);
    } else if OneShotDue(ops, a, mode, n - 1) && ops[n - 1] != DisableAll {
      var i :| 0 <= i < n - 1 && Adds(ops[i], a, mode) && ops[i].lifetime.oneShot && forall j :: i < j < n - 1 ==> ops[j] != DisableAll;
      assert Adds(ops[i], a, mode);
    }
  }

  lemma HitStep(ops: seq<SiteOp>, a: nat, mode: Mode, n: nat)
    requires 0 < n <= |ops|
    ensures HitDue(ops, a, mode, n) <==>
              || (Adds(ops[n - 1], a, mode) && ops[n - 1].lifetime.untilHit)
              || (HitDue(ops, a, mode, n - 1) && ops[n - 1] != HitAt(a))
  {
    if Adds(ops[n - 1], a, mode) && ops[n - 1].lifetime.untilHit {
      assert 0 <= n - 1 < n && Adds(ops[n - 1], a, mode);
    } else if HitDue(ops, a, mode, n - 1) && ops[n - 1] != HitAt(a) {
      var i :| 0 <= i < n - 1 && Adds(ops[i], a, mode) && ops[i].lifetime.untilHit && forall j :: i < j < n - 1 ==> ops[j] != HitAt(a);
      assert Adds(ops[i], a, mode);
    }
  }

  /** The site has been there since the first operation made it. */
  predicate Lives(sites: SiteMap, ops: seq<SiteOp>, a: nat, n: nat)
    requires n <= |ops|
  {
    && a !in sites && 0 < n
    && forall k {:trigger SitesAfter(sites, ops, k)} :: 0 < k <= n ==> a in SitesAfter(sites, ops, k)
  }

  /** One operation on a site that stays. */
  lemma FlagsStep(sites: SiteMap, op: SiteOp, a: nat)
    requires a in sites && a in ApplySite(sites, op)
    ensures var was, now := sites[a], ApplySite(sites, op)[a];
            && now.mode == was.mode && now.size == was.size && now.address == was.address
            && (now.lifetime.oneShot <==>
                  (Adds(op, a, was.mode) && op.lifetime.oneShot) || (was.lifetime.oneShot && op != DisableAll))
            && (now.lifetime.untilHit <==>
                  (Adds(op, a, was.mode) && op.lifetime.untilHit) || (was.lifetime.untilHit && op != HitAt(a)))
  {
  }

  /** While a site lives its mode, size and address are those of the first add, and its
      temporary flags those still due. */
  lemma {:induction false} FlagsAreHistory(sites: SiteMap, ops: seq<SiteOp>, a: nat, n: nat)
    requires n <= |ops| && Lives(sites, ops, a, n)
    ensures ops[0].AddTo?
    ensures var site := SitesAfter(sites, ops, n)[a];
            && site.mode == ops[0].mode && site.size == ops[0].size && site.address == a
            && (site.lifetime.oneShot <==> OneShotDue(ops, a, ops[0].mode, n))
            && (site.lifetime.untilHit <==> HitDue(ops, a, ops[0].mode, n))
  {
    assert a in SitesAfter(sites, ops, n);
    assert SitesAfter(sites, ops, n) == ApplySite(SitesAfter(sites, ops, n - 1), ops[n - 1]);
    if n == 1 {
      assert SitesAfter(sites, ops, 0) == sites;
      assert ops[0].AddTo? && ops[0].a == a;
    } else {
      FlagsAreHistory(sites, ops, a, n - 1);
      FlagsStep(SitesAfter(sites, ops, n - 1), ops[n - 1], a);
    }
    OneShotStep(ops, a, ops[0].mode, n);
    HitStep(ops, a, ops[0].mode, n);
  }

  /** One operation on a site: does it stay? */
  lemma StaysStep(sites: SiteMap, op: SiteOp, a: nat)
    requires a in sites && RefsInv(sites)
    ensures var site := sites[a];
            a in ApplySite(sites, op) <==>
              match op
              case RemoveFrom(b) => b != a || site.refs > 1 || (site.refs == 1 && (site.lifetime.oneShot || site.lifetime.untilHit))
              case DisableAll => site.refs > 0 || site.lifetime.untilHit
              case ClearAll => false
              case _ => true
  {
  }

  /** And it lives on exactly as its history says: past a removal, while permanent adds
      are left unmatched or the last one is matched and a temporary flag is due; past a
      disable, while an add is unmatched or a hit is due. */
  lemma LivesOn(sites: SiteMap, ops: seq<SiteOp>, a: nat, n: nat)
    requires RefsInv(sites) && SingleFlags(ops) && n < |ops| && Lives(sites, ops, a, n) && ops[0].AddTo?
    ensures var mode := ops[0].mode;
            Lives(sites, ops, a, n + 1) <==>
              match ops[n]
              case RemoveFrom(b) =>
                || b != a || Balance(ops, a, mode, n) > 1
                || (Balance(ops, a, mode, n) == 1 && (OneShotDue(ops, a, mode, n) || HitDue(ops, a, mode, n)))
              case DisableAll => Balance(ops, a, mode, n) > 0 || HitDue(ops, a, mode, n)
              case ClearAll => false
              case _ => true
  {
    RunKeepsRefs(sites, ops, n);
    RefsAreUnmatchedAdds(sites, ops, a, n);
    FlagsAreHistory(sites, ops, a, n);
    StaysStep(SitesAfter(sites, ops, n), ops[n], a);
    LivesOneMore(sites, ops, a, n);
  }

  lemma LivesOneMore(sites: SiteMap, ops: seq<SiteOp>, a: nat, n: nat)
    requires n < |ops| && Lives(sites, ops, a, n)
    ensures Lives(sites, ops, a, n + 1) <==> a in ApplySite(SitesAfter(sites, ops, n), ops[n])
  {
    assert SitesAfter(sites, ops, n + 1) == ApplySite(SitesAfter(sites, ops, n), ops[n]);
  }
}
