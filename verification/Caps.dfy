/** Capability names, sets, and the chains of attenuations they come through. */
module Caps {
  import opened Prelude

  const STAR: byte := 42

  type Name = Bytes

  // ----- names -----

  predicate IsPattern(n: Name) {
    |n| > 1 && n[|n| - 1] == STAR
  }

  /** Does a held name or pattern imply a wanted name? */
  predicate Implies(held: Name, want: Name) {
    if IsPattern(held) then held[..|held| - 1] <= want else held == want
  }

  /** `held` implies everything `other` does. */
  ghost predicate Covers(held: Name, other: Name) {
    forall want :: Implies(other, want) ==> Implies(held, want)
  }

  /** A pattern that is another pattern and one more star. */
  predicate StarOfPattern(held: Name, other: Name) {
    IsPattern(other) && held == other + [STAR]
  }

  lemma {:induction false} Transitive(a: Name, b: Name, c: Name)
    requires Implies(a, b) && Implies(b, c) && !StarOfPattern(a, b)
    ensures Implies(a, c)
  {
    if IsPattern(a) && IsPattern(b) {
      var prefix := a[..|a| - 1];
      assert a == prefix + [STAR];
      assert |prefix| < |b| ==> prefix <= b[..|b| - 1];
    }
  }

  /** A name implied covers all it implies, but for the one shape: a pattern, and the pattern with one more star. */
  lemma {:induction false} CoversExactly(a: Name, b: Name)
    ensures Covers(a, b) <==> Implies(a, b) && !StarOfPattern(a, b)
  {
    if Implies(a, b) && !StarOfPattern(a, b) {
      forall want | Implies(b, want)
        ensures Implies(a, want)
      {
        Transitive(a, b, want);
      }
    }
    if Covers(a, b) {
      assert Implies(b, b);
      if StarOfPattern(a, b) {
        assert Implies(b, b[..|b| - 1]);
        assert false;
      }
    }
  }

  /** Everything an allow lets a child have, it covers, exactly when it is not a pattern and one more star. */
  lemma {:induction false} AllowKeptExactly(n: Name)
    ensures (forall m :: Implies(n, m) ==> Covers(n, m)) <==> !EndsInStars(n)
  {
    if EndsInStars(n) {
      var m := n[..|n| - 1];
      CoversExactly(n, m);
      assert Implies(n, m) && !Covers(n, m);
    } else {
      forall m | Implies(n, m)
        ensures Covers(n, m)
      {
        CoversExactly(n, m);
      }
    }
  }

  /** Every deny accepted in the place of a parent's still covers it exactly when that is not a pattern. */
  lemma {:induction false} DenyKeptExactly(n: Name)
    ensures (forall m :: Implies(m, n) ==> Covers(m, n)) <==> !IsPattern(n)
  {
    if IsPattern(n) {
      var m := n + [STAR];
      assert m[..|m| - 1] == n;
      CoversExactly(m, n);
      assert Implies(m, n) && !Covers(m, n);
    } else {
      forall m | Implies(m, n)
        ensures Covers(m, n)
      {
        CoversExactly(m, n);
      }
    }
  }

  predicate EndsInStars(n: Name) {
    |n| > 2 && n[|n| - 1] == STAR && n[|n| - 2] == STAR
  }

  /** A bare star is a name like any other: it implies itself, and only it and two stars imply it. */
  lemma {:induction false} BareStar(n: Name)
    ensures Implies([STAR], n) <==> n == [STAR]
    ensures Implies(n, [STAR]) <==> n == [STAR] || n == [STAR, STAR]
  {
    if Implies(n, [STAR]) && IsPattern(n) {
      assert n[..|n| - 1] <= [STAR];
      assert |n| == 2 && n[0] == n[..1][0] == STAR;
      assert n == [STAR, STAR];
    }
  }

  // ----- sets -----

  datatype Effect = Allow | Deny

  datatype Grant = Grant(effect: Effect, capability: Name)

  /** A set of grants, and the set it was attenuated from: none at the root. */
  datatype CapSet = Root(grants: seq<Grant>) | Granted(grants: seq<Grant>, granter: nat, parent: CapSet)

  predicate Allowed(grants: seq<Grant>, want: Name) {
    exists i :: 0 <= i < |grants| && grants[i].effect == Allow && Implies(grants[i].capability, want)
  }

  predicate Denied(grants: seq<Grant>, want: Name) {
    exists i :: 0 <= i < |grants| && grants[i].effect == Deny && Implies(grants[i].capability, want)
  }

  predicate Holds(s: CapSet, want: Name) {
    !Denied(s.grants, want) && Allowed(s.grants, want)
  }

  datatype AttenuationError = NotHeldByParent(capability: Name) | DenyDropped(capability: Name)

  /** The first grant the parent does not hold. */
  function FirstUnheld(s: CapSet, grants: seq<Grant>): (r: Option<Name>)
    ensures r.None? <==> forall i :: 0 <= i < |grants| && grants[i].effect == Allow ==> Holds(s, grants[i].capability)
  {
    if grants == [] then None
    else if grants[0].effect == Allow && !Holds(s, grants[0].capability) then Some(grants[0].capability)
    else
      assert grants == [grants[0]] + grants[1..];
      FirstUnheld(s, grants[1..])
  }

  /** The first deny of the parent's that no deny of the child's covers. */
  function FirstDropped(parents: seq<Grant>, grants: seq<Grant>): (r: Option<Name>)
    ensures r.None? <==> forall i :: 0 <= i < |parents| && parents[i].effect == Deny ==> Denied(grants, parents[i].capability)
  {
    if parents == [] then None
    else if parents[0].effect == Deny && !Denied(grants, parents[0].capability) then Some(parents[0].capability)
    else
      assert parents == [parents[0]] + parents[1..];
      FirstDropped(parents[1..], grants)
  }

  function Attenuate(s: CapSet, granter: nat, grants: seq<Grant>): Result<CapSet, AttenuationError> {
    match FirstUnheld(s, grants)
    case Some(name) => Err(NotHeldByParent(name))
    case None =>
      match FirstDropped(s.grants, grants)
      case Some(name) => Err(DenyDropped(name))
      case None => Ok(Granted(grants, granter, s))
  }

  /** A set that came about: a root, or attenuated from one that did. */
  predicate Derived(s: CapSet) {
    s.Granted? ==> Derived(s.parent) && Attenuate(s.parent, s.granter, s.grants) == Ok(s)
  }

  /** The sets a set was attenuated from, nearest first, back to the root. */
  function Chain(s: CapSet): seq<CapSet> {
    match s
    case Root(_) => []
    case Granted(_, _, parent) => [parent] + Chain(parent)
  }

  // ----- what attenuation keeps -----

  /** Whatever the child's set holds, the parent's does. */
  ghost predicate Narrows(parents: seq<Grant>, grants: seq<Grant>) {
    forall want :: HeldOf(grants, want) ==> HeldOf(parents, want)
  }

  predicate HeldOf(grants: seq<Grant>, want: Name) {
    !Denied(grants, want) && Allowed(grants, want)
  }

  /** Some grant of `effect` implies the name, and is not the name and one more star. */
  predicate Backs(grants: seq<Grant>, effect: Effect, name: Name) {
    exists i :: 0 <= i < |grants| && grants[i].effect == effect && Implies(grants[i].capability, name)
                && !StarOfPattern(grants[i].capability, name)
  }

  /**
   Every allow of the child's is backed by one of the parent's, and every deny of the
   parent's by one of the child's, none of them only by a name and one more star.
   */
  predicate Firm(parents: seq<Grant>, grants: seq<Grant>) {
    && (forall i :: 0 <= i < |grants| && grants[i].effect == Allow ==> Backs(parents, Allow, grants[i].capability))
    && (forall i :: 0 <= i < |parents| && parents[i].effect == Deny ==> Backs(grants, Deny, parents[i].capability))
  }

  /** What a parent denies, its child denies too. */
  lemma {:induction false} DeniesGrow(parents: seq<Grant>, grants: seq<Grant>, want: Name)
    requires Firm(parents, grants) && Denied(parents, want)
    ensures Denied(grants, want)
  {
    var i :| 0 <= i < |parents| && parents[i].effect == Deny && Implies(parents[i].capability, want);
    var name := parents[i].capability;
    var j :| 0 <= j < |grants| && grants[j].effect == Deny && Implies(grants[j].capability, name) && !StarOfPattern(grants[j].capability, name);
    Transitive(grants[j].capability, name, want);
  }

  /** What a child holds, its parent holds. */
  lemma {:induction false} StepNarrows(parents: seq<Grant>, grants: seq<Grant>)
    requires Firm(parents, grants)
    ensures Narrows(parents, grants)
  {
    forall want | HeldOf(grants, want)
      ensures HeldOf(parents, want)
    {
      if Denied(parents, want) {
        DeniesGrow(parents, grants, want);
      }
      var i :| 0 <= i < |grants| && grants[i].effect == Allow && Implies(grants[i].capability, want);
      var name := grants[i].capability;
      var j :| 0 <= j < |parents| && parents[j].effect == Allow && Implies(parents[j].capability, name) && !StarOfPattern(parents[j].capability, name);
      Transitive(parents[j].capability, name, want);
    }
  }

  /** No grant of `effect` is on a pattern and one more star. */
  predicate Starless(grants: seq<Grant>, effect: Effect) {
    forall i :: 0 <= i < |grants| && grants[i].effect == effect ==> !EndsInStars(grants[i].capability)
  }

  predicate NoPatternDenied(grants: seq<Grant>) {
    forall i :: 0 <= i < |grants| && grants[i].effect == Deny ==> !IsPattern(grants[i].capability)
  }

  /** What is accepted is firm when no name in it can play the trick. */
  lemma {:induction false} PlainIsFirm(parent: CapSet, granter: nat, grants: seq<Grant>)
    requires Attenuate(parent, granter, grants).Ok?
    requires Starless(parent.grants, Allow) && (NoPatternDenied(parent.grants) || Starless(grants, Deny))
    ensures Firm(parent.grants, grants)
  {
    hide Starless, NoPatternDenied, Backs;
    forall i | 0 <= i < |grants| && grants[i].effect == Allow
      ensures Backs(parent.grants, Allow, grants[i].capability)
    {
      PlainBacksAllow(parent, grants[i].capability);
    }
    forall i | 0 <= i < |parent.grants| && parent.grants[i].effect == Deny
      ensures Backs(grants, Deny, parent.grants[i].capability)
    {
      PlainBacksDeny(parent.grants, grants, i);
    }
  }

  lemma PlainBacksAllow(parent: CapSet, name: Name)
    requires Starless(parent.grants, Allow) && Holds(parent, name)
    ensures Backs(parent.grants, Allow, name)
  {
    var j :| 0 <= j < |parent.grants| && parent.grants[j].effect == Allow && Implies(parent.grants[j].capability, name);
    assert !EndsInStars(parent.grants[j].capability);
  }

  lemma PlainBacksDeny(parents: seq<Grant>, grants: seq<Grant>, i: nat)
    requires i < |parents| && parents[i].effect == Deny && Denied(grants, parents[i].capability)
    requires NoPatternDenied(parents) || Starless(grants, Deny)
    ensures Backs(grants, Deny, parents[i].capability)
  {
    var j :| 0 <= j < |grants| && grants[j].effect == Deny && Implies(grants[j].capability, parents[i].capability);
    assert NoPatternDenied(parents) ==> !IsPattern(parents[i].capability);
    assert Starless(grants, Deny) ==> !EndsInStars(grants[j].capability);
  }

  // ----- when a set can be widened -----

  /** Some set accepted as attenuated from these grants holds what they do not. */
  ghost predicate CanWiden(parents: seq<Grant>) {
    exists grants :: Attenuate(Root(parents), 0, grants).Ok? && !Narrows(parents, grants)
  }

  /** Denied whatever the child makes of its parent's denies: a deny on a pattern may be replaced by it and one more star. */
  predicate DeniedStill(grants: seq<Grant>, want: Name) {
    exists i :: 0 <= i < |grants| && grants[i].effect == Deny
                && if IsPattern(grants[i].capability) then grants[i].capability <= want else grants[i].capability == want
  }

  /** Granting on `name`, which is held, gives `want`, which is not. */
  predicate Gains(parents: seq<Grant>, name: Name, want: Name) {
    HeldOf(parents, name) && Implies(name, want) && !HeldOf(parents, want) && !DeniedStill(parents, want)
  }

  function Longest(grants: seq<Grant>): (n: nat)
    ensures forall i :: 0 <= i < |grants| ==> |grants[i].capability| <= n
  {
    if grants == [] then 0 else
      var rest := Longest(grants[1..]);
      assert grants == [grants[0]] + grants[1..];
      if |grants[0].capability| > rest then |grants[0].capability| else rest
  }

  /** The weakest denies a child may have. */
  function Weakened(grants: seq<Grant>): seq<Grant> {
    if grants == [] then [] else Weak(grants[0]) + Weakened(grants[1..])
  }

  /** One deny, as weak as it may become. */
  function Weak(g: Grant): seq<Grant> {
    if g.effect == Allow then [] else [Grant(Deny, if IsPattern(g.capability) then g.capability + [STAR] else g.capability)]
  }

  lemma OneDenied(g: Grant, want: Name)
    ensures Denied([g], want) <==> g.effect == Deny && Implies(g.capability, want)
    ensures DeniedStill([g], want)
       <==> g.effect == Deny && if IsPattern(g.capability) then g.capability <= want else g.capability == want
  {
    assert [g][0] == g;
  }

  lemma WeakDenies(g: Grant, want: Name)
    ensures Denied(Weak(g), want) <==> DeniedStill([g], want)
    ensures forall i :: 0 <= i < |Weak(g)| ==> Weak(g)[i].effect == Deny
  {
    var n := g.capability;
    OneDenied(g, want);
    if g.effect == Deny {
      var w := Grant(Deny, if IsPattern(n) then n + [STAR] else n);
      OneDenied(w, want);
      assert IsPattern(n) ==> (n + [STAR])[..|n|] == n;
      hide Denied, DeniedStill;
      assert Weak(g) == [w];
    }
  }

  lemma DeniedEither(a: seq<Grant>, b: seq<Grant>, want: Name)
    ensures Denied(a + b, want) <==> Denied(a, want) || Denied(b, want)
    ensures DeniedStill(a + b, want) <==> DeniedStill(a, want) || DeniedStill(b, want)
  {
    var r := a + b;
    assert forall i :: 0 <= i < |a| ==> r[i] == a[i];
    assert forall i :: 0 <= i < |b| ==> r[|a| + i] == b[i];
    assert forall i :: |a| <= i < |r| ==> r[i] == b[i - |a|];
  }

  lemma {:induction false} WeakenedDenies(grants: seq<Grant>, want: Name)
    ensures forall i :: 0 <= i < |Weakened(grants)| ==> Weakened(grants)[i].effect == Deny
    ensures Denied(Weakened(grants), want) <==> DeniedStill(grants, want)
  {
    if grants != [] {
      WeakDenies(grants[0], want);
      DeniedEither(Weak(grants[0]), Weakened(grants[1..]), want);
      WeakenedDenies(grants[1..], want);
      assert grants == [grants[0]] + grants[1..];
      DeniedEither([grants[0]], grants[1..], want);
    }
  }

  /** What stays denied whatever the child does is denied by every set that is accepted. */
  lemma {:induction false} StillDenied(parents: seq<Grant>, grants: seq<Grant>, want: Name)
    requires FirstDropped(parents, grants).None? && DeniedStill(parents, want)
    ensures Denied(grants, want)
  {
    var i :| 0 <= i < |parents| && parents[i].effect == Deny
             && if IsPattern(parents[i].capability) then parents[i].capability <= want else parents[i].capability == want;
    var n := parents[i].capability;
    assert Denied(grants, n);
    var j :| 0 <= j < |grants| && grants[j].effect == Deny && Implies(grants[j].capability, n);
    var d := grants[j].capability;
    if StarOfPattern(d, n) {
      assert d[..|d| - 1] == n;
    } else {
      assert IsPattern(n) ==> n[..|n| - 1] <= want;
      Transitive(d, n, want);
    }
    assert Implies(d, want);
  }

  /** The parent's denies weakened, and one name granted on. */
  function GrantedOn(parents: seq<Grant>, name: Name): seq<Grant> {
    [Grant(Allow, name)] + Weakened(parents)
  }

  lemma {:induction false} GrantedOnHolds(parents: seq<Grant>, name: Name, want: Name)
    ensures Denied(GrantedOn(parents, name), want) <==> DeniedStill(parents, want)
    ensures Implies(name, want) ==> Allowed(GrantedOn(parents, name), want)
    ensures forall i :: 0 <= i < |GrantedOn(parents, name)| && GrantedOn(parents, name)[i].effect == Allow
              ==> GrantedOn(parents, name)[i].capability == name
  {
    WeakenedDenies(parents, want);
    DeniedEither([Grant(Allow, name)], Weakened(parents), want);
    var grants := GrantedOn(parents, name);
    assert grants[0] == Grant(Allow, name) == [Grant(Allow, name)][0];
    assert forall i :: 0 < i < |grants| ==> grants[i] == Weakened(parents)[i - 1];
  }

  lemma {:induction false} GainIsAccepted(parents: seq<Grant>, name: Name, want: Name)
    requires Gains(parents, name, want)
    ensures CanWiden(parents)
  {
    hide Weakened, GrantedOn;
    var grants := GrantedOn(parents, name);
    GrantedOnHolds(parents, name, want);
    forall i | 0 <= i < |parents| && parents[i].effect == Deny
      ensures Denied(grants, parents[i].capability)
    {
      GrantedOnHolds(parents, name, parents[i].capability);
      assert DeniedStill(parents, parents[i].capability);
    }
    assert Holds(Root(parents), name);
    assert Attenuate(Root(parents), 0, grants).Ok?;
    assert HeldOf(grants, want) && !HeldOf(parents, want);
  }

  /** Names longer than every grant's differ only in what they begin with. */
  lemma {:induction false} Shortened(grants: seq<Grant>, want: Name, n: nat)
    requires Longest(grants) < n <= |want|
    ensures HeldOf(grants, want[..n]) == HeldOf(grants, want) && DeniedStill(grants, want[..n]) == DeniedStill(grants, want)
  {
    var short := want[..n];
    forall i | 0 <= i < |grants|
      ensures Implies(grants[i].capability, short) == Implies(grants[i].capability, want)
      ensures grants[i].capability <= short <==> grants[i].capability <= want
      ensures grants[i].capability != short && grants[i].capability != want
    {
      var held := grants[i].capability;
      assert |held| < n;
      ShortPrefix(held, want, n);
      ShortPrefix(held[..if |held| > 0 then |held| - 1 else 0], want, n);
    }
  }

  lemma ShortPrefix(a: Name, want: Name, n: nat)
    requires |a| <= n <= |want|
    ensures a <= want[..n] <==> a <= want
  {
    if a <= want {
      assert a == want[..|a|] == want[..n][..|a|];
    }
    if a <= want[..n] {
      assert a == want[..n][..|a|] == want[..|a|];
    }
  }

  /** A longer pattern for the same name begins with all the shorter one asks for. */
  lemma {:induction false} LongName(n: Name, name: Name, want: Name)
    requires Implies(n, want) && Implies(name, want) && IsPattern(name) && |n| < |name|
    ensures Implies(n, name) || |n| == |name| - 1 == |want|
  {
    if IsPattern(n) {
      var r := n[..|n| - 1];
      assert r == want[..|r|] == name[..|name| - 1][..|r|] == name[..|r|];
    }
  }

  /** What is gained is gained from a pattern hardly longer than the grants. */
  lemma {:induction false} GainIsShort(parents: seq<Grant>, name: Name, want: Name)
    requires Gains(parents, name, want)
    ensures IsPattern(name) && |name| <= Longest(parents) + 1
  {
    if |name| > Longest(parents) + 1 {
      var i :| 0 <= i < |parents| && parents[i].effect == Allow && Implies(parents[i].capability, name);
      Transitive(parents[i].capability, name, want);
      assert Allowed(parents, want) && Denied(parents, want);
      var j :| 0 <= j < |parents| && parents[j].effect == Deny && Implies(parents[j].capability, want);
      LongName(parents[j].capability, name, want);
    }
  }

  /**
   A set can be widened exactly when a name no longer than its own names and one byte
   gives another such, that is neither held nor denied for good.
   */
  lemma {:induction false} CanWidenExactly(parents: seq<Grant>)
    ensures CanWiden(parents) <==> exists name: Name, want: Name ::
      |name| <= Longest(parents) + 1 && |want| <= Longest(parents) + 1 && Gains(parents, name, want)
  {
    var top := Longest(parents) + 1;
    if name: Name, want: Name :| |name| <= top && |want| <= top && Gains(parents, name, want) {
      GainIsAccepted(parents, name, want);
    }
    if CanWiden(parents) {
      var grants :| Attenuate(Root(parents), 0, grants).Ok? && !Narrows(parents, grants);
      var name, want := WidenedGains(parents, grants);
      GainIsShort(parents, name, want);
      if |want| > top {
        Shortened(parents, want, top);
        ShortPrefix(name[..|name| - 1], want, top);
        assert Gains(parents, name, want[..top]);
      }
    }
  }

  /** A set that does not narrow gains by one of its allows. */
  lemma {:induction false} WidenedGains(parents: seq<Grant>, grants: seq<Grant>) returns (name: Name, want: Name)
    requires Attenuate(Root(parents), 0, grants).Ok? && !Narrows(parents, grants)
    ensures Gains(parents, name, want)
  {
    want :| HeldOf(grants, want) && !HeldOf(parents, want);
    var i :| 0 <= i < |grants| && grants[i].effect == Allow && Implies(grants[i].capability, want);
    name := grants[i].capability;
    assert Holds(Root(parents), name);
    if DeniedStill(parents, want) {
      StillDenied(parents, grants, want);
    }
  }

  /** What is accepted of a set that cannot be widened narrows it. */
  lemma {:induction false} UnwidenedNarrows(parent: CapSet, granter: nat, grants: seq<Grant>)
    requires Attenuate(parent, granter, grants).Ok? && !CanWiden(parent.grants)
    ensures Narrows(parent.grants, grants)
  {
    SameAnswer(parent, granter, grants);
    hide Attenuate, Narrows;
  }

  /** Attenuation looks at the parent's grants only. */
  lemma SameAnswer(parent: CapSet, granter: nat, grants: seq<Grant>)
    ensures Attenuate(parent, granter, grants).Ok? <==> Attenuate(Root(parent.grants), 0, grants).Ok?
  {
  }

  /** One byte more than any name in either list. */
  function Beyond(parents: seq<Grant>, grants: seq<Grant>): nat {
    1 + if Longest(parents) > Longest(grants) then Longest(parents) else Longest(grants)
  }

  /** No name up to that length is held of the grants and not of the parent's. */
  ghost predicate NarrowsShort(parents: seq<Grant>, grants: seq<Grant>) {
    forall want: Name :: |want| <= Beyond(parents, grants) && HeldOf(grants, want) ==> HeldOf(parents, want)
  }

  /** Whether one list narrows another is settled by the names hardly longer than theirs. */
  lemma {:induction false} NarrowsExactly(parents: seq<Grant>, grants: seq<Grant>)
    ensures Narrows(parents, grants) <==> NarrowsShort(parents, grants)
  {
    if NarrowsShort(parents, grants) {
      var n := Beyond(parents, grants);
      forall want | HeldOf(grants, want)
        ensures HeldOf(parents, want)
      {
        if |want| > n {
          Shortened(grants, want, n);
          Shortened(parents, want, n);
          assert HeldOf(parents, want[..n]);
        }
      }
    }
  }

  /** Every step of the chain narrows the short names. */
  ghost predicate ChainSound(s: CapSet) {
    s.Granted? ==> NarrowsShort(s.parent.grants, s.grants) && ChainSound(s.parent)
  }

  /** What any set of the chain holds, every set it came through holds, back to the root. */
  ghost predicate ChainNarrow(s: CapSet) {
    s.Granted? ==>
      && (forall want, k :: 0 <= k < |Chain(s)| && Holds(s, want) ==> Holds(Chain(s)[k], want))
      && ChainNarrow(s.parent)
  }

  /** A chain narrows throughout exactly when each of its steps does. */
  lemma {:induction false} ChainNarrowsExactly(s: CapSet)
    ensures ChainNarrow(s) <==> ChainSound(s)
  {
    if s.Granted? {
      ChainNarrowsExactly(s.parent);
      NarrowsExactly(s.parent.grants, s.grants);
      if ChainNarrow(s) {
        forall want | HeldOf(s.grants, want)
          ensures HeldOf(s.parent.grants, want)
        {
          assert Holds(s, want) && Chain(s)[0] == s.parent && Holds(Chain(s)[0], want);
        }
      }
      if ChainSound(s) {
        forall want, k | 0 <= k < |Chain(s)| && Holds(s, want)
          ensures Holds(Chain(s)[k], want)
        {
          ChainNarrows(s, want, k);
        }
      }
    }
  }

  lemma {:induction false} ChainNarrows(s: CapSet, want: Name, k: nat)
    requires ChainSound(s) && Holds(s, want) && k < |Chain(s)|
    ensures Holds(Chain(s)[k], want)
  {
    NarrowsExactly(s.parent.grants, s.grants);
    hide NarrowsShort;
    assert HeldOf(s.grants, want);
    if k > 0 {
      ChainNarrows(s.parent, want, k - 1);
    }
  }

  /** No name anywhere in the chain is a pattern and one more star. */
  predicate ChainStarless(s: CapSet) {
    Starless(s.grants, Allow) && Starless(s.grants, Deny) && (s.Granted? ==> ChainStarless(s.parent))
  }

  /** Each step of the chain is firm, or from a set that cannot be widened. */
  ghost predicate ChainFirm(s: CapSet) {
    s.Granted? ==> (Firm(s.parent.grants, s.grants) || !CanWiden(s.parent.grants)) && ChainFirm(s.parent)
  }

  /** Firm steps are sound, and so are accepted ones from a set that cannot be widened. */
  lemma {:induction false} FirmIsSound(s: CapSet)
    requires Derived(s) && ChainFirm(s)
    ensures ChainSound(s)
  {
    hide Firm, CanWiden, Attenuate;
    if s.Granted? {
      DerivedStep(s);
      if Firm(s.parent.grants, s.grants) {
        StepNarrows(s.parent.grants, s.grants);
      } else {
        UnwidenedNarrows(s.parent, s.granter, s.grants);
      }
      NarrowsExactly(s.parent.grants, s.grants);
      FirmIsSound(s.parent);
    }
  }

  /** Where no name ends in two stars, a grant only ever narrows: along the whole chain. */
  lemma {:induction false} PlainChainNarrows(s: CapSet)
    requires Derived(s) && ChainStarless(s)
    ensures ChainNarrow(s)
  {
    PlainChainFirm(s);
    FirmIsSound(s);
    ChainNarrowsExactly(s);
  }

  lemma {:induction false} PlainChainFirm(s: CapSet)
    requires Derived(s) && ChainStarless(s)
    ensures ChainFirm(s)
  {
    hide Starless, Firm, CanWiden, Attenuate;
    if s.Granted? {
      DerivedStep(s);
      PlainIsFirm(s.parent, s.granter, s.grants);
      PlainChainFirm(s.parent);
    }
  }

  lemma DerivedStep(s: CapSet)
    requires Derived(s) && s.Granted?
    ensures Attenuate(s.parent, s.granter, s.grants).Ok? && Derived(s.parent)
  {
  }

  /** The chain of a set that came about ends at a root, and each set in it came about. */
  lemma {:induction false} ChainEnds(s: CapSet)
    requires Derived(s)
    ensures forall k :: 0 <= k < |Chain(s)| ==> Derived(Chain(s)[k])
    ensures s.Granted? ==> Chain(s) != [] && Chain(s)[|Chain(s)| - 1].Root? && Chain(s)[0] == s.parent
  {
    if s.Granted? {
      ChainEnds(s.parent);
    }
  }

  /** Of a parent's own name `x*` and its deny of `xa*`: the deny replaced by `xa**` is accepted, and `xab` is gained. */
  lemma WeakenedDenyWidens()
    ensures var x, a, b := 120 as byte, 97 as byte, 98 as byte;
      var parent := Root([Grant(Allow, [x, STAR]), Grant(Deny, [x, a, STAR])]);
      var grants := [Grant(Allow, [x, STAR]), Grant(Deny, [x, a, STAR, STAR])];
      && Attenuate(parent, 0, grants).Ok?
      && Holds(Granted(grants, 0, parent), [x, a, b]) && !Holds(parent, [x, a, b])
      && forall i :: 0 <= i < |parent.grants| ==> !EndsInStars(parent.grants[i].capability)
  {
    var x, a, b := 120 as byte, 97 as byte, 98 as byte;
    var parent := Root([Grant(Allow, [x, STAR]), Grant(Deny, [x, a, STAR])]);
    var grants := [Grant(Allow, [x, STAR]), Grant(Deny, [x, a, STAR, STAR])];
    assert [x, STAR][..1] == [x] && [x, a, STAR][..2] == [x, a] && [x, a, STAR, STAR][..3] == [x, a, STAR];
    assert [x] <= [x, STAR] && [x] <= [x, a, b] && [x, a] <= [x, a, b] && [x, a, STAR] <= [x, a, STAR];
    assert !([x, a] <= [x, STAR]) by { assert [x, STAR][1] != [x, a][1]; }
    assert !([x, a, STAR] <= [x, a, b]) by { assert [x, a, b][2] != [x, a, STAR][2]; }
    assert parent.grants[0].effect == Allow && Implies(parent.grants[0].capability, [x, STAR]);
    assert grants[0].effect == Allow && Implies(grants[0].capability, [x, a, b]);
    assert parent.grants[1].effect == Deny && Implies(parent.grants[1].capability, [x, a, b]);
    assert grants[1].effect == Deny && Implies(grants[1].capability, [x, a, STAR]);
    assert Holds(parent, [x, STAR]) && Denied(grants, [x, a, STAR]);
  }

  // ----- the shape that widens -----

  ghost predicate NeverWidens(name: Name) {
    forall granter: nat, grants: seq<Grant>, want: Name ::
      Attenuate(Root([Grant(Allow, name)]), granter, grants).Ok? && Holds(Granted(grants, granter, Root([Grant(Allow, name)])), want)
      ==> Holds(Root([Grant(Allow, name)]), want)
  }

  lemma OneName(name: Name, want: Name)
    ensures Holds(Root([Grant(Allow, name)]), want) <==> Implies(name, want)
  {
    var grants := [Grant(Allow, name)];
    assert grants[0] == Grant(Allow, name);
  }

  /** No attenuation of one name widens it exactly when the name is not a pattern and one more star. */
  lemma {:induction false} NeverWidensExactly(name: Name)
    ensures NeverWidens(name) <==> !EndsInStars(name)
  {
    if EndsInStars(name) {
      Widens(name);
    } else {
      hide Attenuate, Holds;
      forall granter: nat, grants: seq<Grant>, want: Name
        | Attenuate(Root([Grant(Allow, name)]), granter, grants).Ok? && Holds(Granted(grants, granter, Root([Grant(Allow, name)])), want)
        ensures Holds(Root([Grant(Allow, name)]), want)
      {
        OneNameKept(name, granter, grants, want);
      }
    }
  }

  lemma {:induction false} OneNameKept(name: Name, granter: nat, grants: seq<Grant>, want: Name)
    requires !EndsInStars(name) && Attenuate(Root([Grant(Allow, name)]), granter, grants).Ok?
    requires Holds(Granted(grants, granter, Root([Grant(Allow, name)])), want)
    ensures Holds(Root([Grant(Allow, name)]), want)
  {
    var i :| 0 <= i < |grants| && grants[i].effect == Allow && Implies(grants[i].capability, want);
    assert Holds(Root([Grant(Allow, name)]), grants[i].capability);
    hide Holds, Attenuate;
    OneName(name, grants[i].capability);
    Transitive(name, grants[i].capability, want);
    OneName(name, want);
  }

  /** From a pattern and one more star, the pattern may be granted on, and holds more. */
  lemma Widens(name: Name)
    requires EndsInStars(name)
    ensures !NeverWidens(name)
  {
    var pattern := name[..|name| - 1];
    var want := pattern[..|pattern| - 1];
    var parent := Root([Grant(Allow, name)]);
    var grants := [Grant(Allow, pattern)];
    OneName(name, pattern);
    OneName(pattern, want);
    OneName(name, want);
    assert Attenuate(parent, 0, grants).Ok?;
    assert Holds(Granted(grants, 0, parent), want) == Holds(Root(grants), want);
    assert !Holds(parent, want);
  }

  // ----- when an attenuation is accepted -----

  /** It is accepted exactly when the parent holds each allow and the child denies each of the parent's denies; else the first that fails is named. */
  lemma {:induction false} AcceptedExactly(parent: CapSet, granter: nat, grants: seq<Grant>)
    ensures var r, parents := Attenuate(parent, granter, grants), parent.grants;
      && (r.Ok? <==> (forall i :: 0 <= i < |grants| && grants[i].effect == Allow ==> Holds(parent, grants[i].capability))
                     && forall i :: 0 <= i < |parents| && parents[i].effect == Deny ==> Denied(grants, parents[i].capability))
      && (r.Ok? ==> r.value == Granted(grants, granter, parent))
      && (forall name :: r == Err(NotHeldByParent(name)) <==> FirstNotHeld(parent, grants, name))
      && (forall name :: r == Err(DenyDropped(name)) ==> exists i :: 0 <= i < |parents| && parents[i] == Grant(Deny, name) && !Denied(grants, name))
  {
    hide Holds, Denied;
    UnheldIs(parent, grants);
    DroppedIs(parent.grants, grants);
  }

  /** The first allow the parent does not hold is on this name. */
  ghost predicate FirstNotHeld(parent: CapSet, grants: seq<Grant>, name: Name) {
    exists i :: 0 <= i < |grants| && grants[i] == Grant(Allow, name) && !Holds(parent, name)
      && forall k :: 0 <= k < i && grants[k].effect == Allow ==> Holds(parent, grants[k].capability)
  }

  lemma {:induction false} UnheldIs(parent: CapSet, grants: seq<Grant>)
    ensures forall name :: FirstUnheld(parent, grants) == Some(name) <==> FirstNotHeld(parent, grants, name)
  {
    hide Holds;
    if grants != [] {
      UnheldIs(parent, grants[1..]);
      forall name
        ensures FirstUnheld(parent, grants) == Some(name) <==> FirstNotHeld(parent, grants, name)
      {
        UnheldStep(parent, grants, name);
      }
    }
  }

  lemma UnheldStep(parent: CapSet, grants: seq<Grant>, name: Name)
    requires grants != []
    ensures FirstNotHeld(parent, grants, name) <==>
      if grants[0].effect == Allow && !Holds(parent, grants[0].capability) then grants[0].capability == name
      else FirstNotHeld(parent, grants[1..], name)
  {
    hide Holds;
    var rest := grants[1..];
    if FirstNotHeld(parent, grants, name) {
      var i :| 0 <= i < |grants| && grants[i] == Grant(Allow, name) && !Holds(parent, name)
               && forall k :: 0 <= k < i && grants[k].effect == Allow ==> Holds(parent, grants[k].capability);
      if i > 0 {
        assert rest[i - 1] == grants[i];
        assert forall k :: 0 <= k < i - 1 ==> rest[k] == grants[k + 1];
      }
    }
    if FirstNotHeld(parent, rest, name) {
      var i :| 0 <= i < |rest| && rest[i] == Grant(Allow, name) && !Holds(parent, name)
               && forall k :: 0 <= k < i && rest[k].effect == Allow ==> Holds(parent, rest[k].capability);
      assert grants[i + 1] == rest[i];
      assert forall k :: 0 < k < i + 1 ==> grants[k] == rest[k - 1];
    }
  }

  lemma {:induction false} DroppedIs(parents: seq<Grant>, grants: seq<Grant>)
    ensures var r := FirstDropped(parents, grants);
      r.Some? ==> exists i :: 0 <= i < |parents| && parents[i] == Grant(Deny, r.value) && !Denied(grants, r.value)
  {
    hide Denied;
    if parents != [] && FirstDropped(parents, grants).Some? && !(parents[0].effect == Deny && !Denied(grants, parents[0].capability)) {
      DroppedIs(parents[1..], grants);
      var i :| 0 <= i < |parents[1..]| && parents[1..][i] == Grant(Deny, FirstDropped(parents, grants).value);
      assert parents[i + 1] == parents[1..][i];
    }
  }
}
