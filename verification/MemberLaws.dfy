/** What every run of sign-ins, membership changes and seeds keeps. */
module MemberLaws {
  import opened Schema
  import opened Members

  datatype Request =
    | SignIn(claims: Claims)
    | Admin(claims: Claims, change: Change)
    | Seed(config: Config, newOrg: Id)

  function Step(s: State, def: Default, req: Request): State {
    match req
    case SignIn(c) => Resolved(s, c, def).state
    case Admin(c, change) => Changed(s, c, def, change).state
    case Seed(cfg, newOrg) => Seeded(s, cfg, newOrg)
  }

  function After(s: State, def: Default, reqs: seq<Request>): State {
    if reqs == [] then s else Step(After(s, def, reqs[..|reqs| - 1]), def, reqs[|reqs| - 1])
  }

  // ---------------------------------------------------------------- the invariant

  /** Two rows that may not both be stored. */
  predicate Clash(a: Member, b: Member) {
    || (a.sub != "" && a.sub == b.sub)
    || (a.org == b.org && a.email != "" && a.email == b.email)
  }

  /** Each non-empty subject once; each non-empty email once an organization; every email canonical. */
  predicate Clean(ms: seq<Member>) {
    && (forall i, j | 0 <= i < j < |ms| :: !Clash(ms[i], ms[j]))
    && (forall i | 0 <= i < |ms| :: CanonicalEmail(ms[i].email) == ms[i].email)
  }

  lemma {:induction false} CleanAppend(ms: seq<Member>, m: Member)
    requires Clean(ms) && CanonicalEmail(m.email) == m.email && forall e | e in ms :: !Clash(e, m)
    ensures Clean(ms + [m])
  {
    hide CanonicalEmail;
    var all := ms + [m];
    forall i, j | 0 <= i < j < |all| ensures !Clash(all[i], all[j]) {
      if j == |ms| { assert ms[i] in ms; }
    }
  }

  /** A row may be replaced by one with the same email whose subject is the same or new. */
  lemma {:induction false} CleanUpdate(ms: seq<Member>, n: nat, m: Member)
    requires Clean(ms) && n < |ms| && m.org == ms[n].org && m.email == ms[n].email
    requires m.sub == ms[n].sub || forall e | e in ms :: e.sub != m.sub
    ensures Clean(ms[n := m])
  {
    hide CanonicalEmail;
    var all := ms[n := m];
    forall i, j | 0 <= i < j < |all| ensures !Clash(all[i], all[j]) {
      assert !Clash(ms[i], ms[j]);
      assert ms[i] in ms && ms[j] in ms;
    }
  }

  lemma {:induction false} CleanRemove(ms: seq<Member>, n: nat)
    requires Clean(ms) && n < |ms|
    ensures Clean(ms[..n] + ms[n + 1..])
  {
    hide CanonicalEmail, Clash;
    var all := ms[..n] + ms[n + 1..];
    forall i | 0 <= i < |all| ensures all[i] == ms[if i < n then i else i + 1] {}
  }

  lemma {:induction false} NoSubject(ms: seq<Member>, sub: string)
    requires Find(ms, BySubject(sub)) == |ms| && sub != ""
    ensures forall e | e in ms :: e.sub != sub
  {
    forall e | e in ms ensures e.sub != sub {
      var i :| 0 <= i < |ms| && ms[i] == e;
      assert !Hits(BySubject(sub), ms[i]);
    }
  }

  lemma {:induction false} ResolvedClean(s: State, c: Claims, def: Default)
    requires Clean(s.members)
    ensures Clean(Resolved(s, c, def).state.members)
  {
    hide CanonicalEmail, Clean, Collides, Clash;
    if c.sub != "" {
      var ms := s.members;
      var p := Find(ms, Invite(c.email));
      if Find(ms, BySubject(c.sub)) == |ms| {
        NoSubject(ms, c.sub);
        if CanonicalEmail(c.email) != "" && p < |ms| {
          CleanUpdate(ms, p, ms[p].(sub := c.sub));
        } else if def.role != "" && def.slug != "" && def.slug in s.orgs {
          var m := Member(s.orgs[def.slug], c.sub, def.role, CanonicalEmail(c.email));
          CanonicalTwice(c.email);
          if !exists e | e in ms :: Collides(e, m) {
            forall e | e in ms ensures !Clash(e, m) { ApartIsClean(ms, e, m); }
            CleanAppend(ms, m);
          }
        }
      }
    }
  }

  lemma {:induction false} ApartIsClean(ms: seq<Member>, e: Member, m: Member)
    requires Clean(ms) && e in ms && CanonicalEmail(m.email) == m.email && !Collides(e, m)
    ensures !Clash(e, m)
  {
    hide CanonicalEmail;
  }

  lemma {:induction false} FreeIsClean(ms: seq<Member>, e: Member, org: Id, role: string, email: string)
    requires Clean(ms) && e in ms && !Taken(e, org, email)
    ensures !Clash(e, Member(org, "", role, CanonicalEmail(email)))
  {
    hide CanonicalEmail;
    CanonicalTwice(email);
  }

  lemma {:induction false} InviteClean(ms: seq<Member>, org: Id, role: string, email: string)
    requires Clean(ms) && forall e | e in ms :: !Taken(e, org, email)
    ensures Clean(ms + [Member(org, "", role, CanonicalEmail(email))])
  {
    hide CanonicalEmail, Clean, Clash, Taken;
    var m := Member(org, "", role, CanonicalEmail(email));
    CanonicalTwice(email);
    forall e | e in ms ensures !Clash(e, m) { FreeIsClean(ms, e, org, role, email); }
    CleanAppend(ms, m);
  }

  lemma {:induction false} ChangedClean(s: State, c: Claims, def: Default, change: Change)
    requires Clean(s.members)
    ensures Clean(Changed(s, c, def, change).state.members)
  {
    hide CanonicalEmail, Clean, Taken, Resolved, Find;
    ResolvedClean(s, c, def);
    var r := Resolved(s, c, def);
    if r.caller.Ok? && r.caller.value.role == ADMIN {
      var org, ms := r.caller.value.org, r.state.members;
      match change {
        case AddMember(email, role) =>
          if !exists e | e in ms :: Taken(e, org, email) { InviteClean(ms, org, role, email); }
        case SetRole(sub, email, role) =>
          var n := Find(ms, InOrg(org, sub, email));
          if n < |ms| { CleanUpdate(ms, n, ms[n].(role := role)); }
        case Remove(sub, email) =>
          var n := Find(ms, InOrg(org, sub, email));
          if n < |ms| { CleanRemove(ms, n); }
      }
    }
  }

  lemma {:induction false} PromotedClean(s: State, org: Id, n: nat)
    requires Clean(s.members) && n < |s.members|
    ensures Clean(Promoted(s, org, n).members)
  {
    hide CanonicalEmail, Clean, Find;
    var m := s.members[n];
    var k := Find(s.members, InOrg(org, m.sub, m.email));
    if k < |s.members| { CleanUpdate(s.members, k, s.members[k].(role := ADMIN)); }
  }

  lemma {:induction false} SubjectClean(s: State, org: Id, sub: string)
    requires Clean(s.members)
    ensures Clean(SeededSubject(s, org, sub).members)
  {
    hide CanonicalEmail, Clean, Promoted;
    if sub != "" {
      var n := Find(s.members, BySubject(sub));
      if n == |s.members| {
        NoSubject(s.members, sub);
        EmptyCanonical();
        CleanAppend(s.members, Member(org, sub, ADMIN, ""));
      } else {
        PromotedClean(s, org, n);
      }
    }
  }

  lemma {:induction false} EmailClean(s: State, org: Id, email: string)
    requires Clean(s.members)
    ensures Clean(SeededEmail(s, org, email).members)
  {
    hide CanonicalEmail, Clean, Promoted, Find, Taken;
    var n := Find(s.members, ActiveEmail(org, email));
    if n < |s.members| {
      PromotedClean(s, org, n);
    } else if !exists e | e in s.members :: Taken(e, org, email) {
      InviteClean(s.members, org, ADMIN, email);
    }
  }

  lemma {:induction false} SeededClean(s: State, cfg: Config, newOrg: Id)
    requires Clean(s.members)
    ensures Clean(Seeded(s, cfg, newOrg).members)
  {
    hide Clean, SeededSubject, SeededEmail;
    if cfg.orgSlug != "" {
      var s1 := if cfg.orgSlug in s.orgs then s else s.(orgs := s.orgs[cfg.orgSlug := newOrg]);
      var org := s1.orgs[cfg.orgSlug];
      SubjectClean(s1, org, cfg.adminSub);
      EmailClean(SeededSubject(s1, org, cfg.adminSub), org, cfg.adminEmail);
    }
  }

  lemma {:induction false} StepClean(s: State, def: Default, req: Request)
    requires Clean(s.members)
    ensures Clean(Step(s, def, req).members)
  {
    hide Clean, Resolved, Changed, Seeded;
    match req {
      case SignIn(c) => ResolvedClean(s, c, def);
      case Admin(c, change) => ChangedClean(s, c, def, change);
      case Seed(cfg, newOrg) => SeededClean(s, cfg, newOrg);
    }
  }

  /** In every run, no subject has two memberships, no organization two rows for one email, and every
      stored email is canonical. */
  lemma {:induction false} AlwaysClean(s: State, def: Default, reqs: seq<Request>)
    requires Clean(s.members)
    ensures Clean(After(s, def, reqs).members)
  {
    hide Clean, Step;
    if reqs != [] {
      var n := |reqs| - 1;
      AlwaysClean(s, def, reqs[..n]);
      StepClean(After(s, def, reqs[..n]), def, reqs[n]);
    }
  }

  // ---------------------------------------------------------------- resolving a caller

  /** Rows only gain a subject or come last; no stored organization, email or role changes. */
  predicate OnlyJoined(a: seq<Member>, b: seq<Member>) {
    && |a| <= |b| <= |a| + 1
    && forall i | 0 <= i < |a| :: b[i] == a[i].(sub := b[i].sub) && (a[i].sub != "" ==> b[i].sub == a[i].sub)
  }

  /** Resolving a caller never changes a stored role. */
  lemma {:induction false} ResolveKeepsRoles(s: State, c: Claims, def: Default)
    ensures var t := Resolved(s, c, def).state; t.orgs == s.orgs && OnlyJoined(s.members, t.members)
  {
    hide CanonicalEmail, Collides;
  }

  lemma {:induction false} FindIs(ms: seq<Member>, q: Query, n: nat)
    requires n < |ms| && Hits(q, ms[n]) && forall k | 0 <= k < n :: !Hits(q, ms[k])
    ensures Find(ms, q) == n
  {}

  /** A second resolution of the same subject changes nothing and gives the same organization and
      role, whatever its email claim and whatever the default has become. */
  lemma {:induction false} ResolveTwice(s: State, c: Claims, def: Default, email: string, later: Default)
    requires Resolved(s, c, def).caller.Ok?
    ensures var r := Resolved(s, c, def);
            Resolved(r.state, Claims(c.sub, email), later) == Resolution(r.state, Ok(r.caller.value.(email := email)))
  {
    hide CanonicalEmail, Collides;
    var r := Resolved(s, c, def);
    var ms, n := s.members, Find(s.members, BySubject(c.sub));
    if n == |ms| {
      var p := Find(ms, Invite(c.email));
      if CanonicalEmail(c.email) != "" && p < |ms| {
        FindIs(r.state.members, BySubject(c.sub), p);
      } else {
        FindIs(r.state.members, BySubject(c.sub), |ms|);
      }
    }
  }

  // ---------------------------------------------------------------- an organization keeps an admin

  predicate HasAdmin(ms: seq<Member>, org: Id) { exists m | m in ms :: ActiveAdmin(m, org) }

  lemma {:induction false} AdminsCount(ms: seq<Member>, org: Id)
    ensures Admins(ms, org) > 0 <==> HasAdmin(ms, org)
  {
    if ms != [] {
      var n := |ms| - 1;
      AdminsCount(ms[..n], org);
      assert ms == ms[..n] + [ms[n]];
    }
  }

  lemma {:induction false} AdminsConcat(a: seq<Member>, b: seq<Member>, org: Id)
    ensures Admins(a + b, org) == Admins(a, org) + Admins(b, org)
  {
    if b == [] {
      assert a + b == a;
    } else {
      var n := |b| - 1;
      AdminsConcat(a, b[..n], org);
      assert (a + b)[..|a| + n] == a + b[..n];
    }
  }

  /** The other rows' admins. */
  lemma {:induction false} AdminsWithout(ms: seq<Member>, n: nat, org: Id)
    requires n < |ms|
    ensures Admins(ms, org) == Admins(ms[..n] + ms[n + 1..], org) + if ActiveAdmin(ms[n], org) then 1 else 0
  {
    hide ActiveAdmin;
    assert ms == ms[..n] + [ms[n]] + ms[n + 1..];
    AdminsConcat(ms[..n] + [ms[n]], ms[n + 1..], org);
    AdminsConcat(ms[..n], [ms[n]], org);
    AdminsConcat(ms[..n], ms[n + 1..], org);
    assert [ms[n]][..0] == [];
    assert Admins([ms[n]], org) == if ActiveAdmin(ms[n], org) then 1 else 0;
  }

  lemma {:induction false} AdminsUpdate(ms: seq<Member>, n: nat, m: Member, org: Id)
    requires n < |ms|
    ensures Admins(ms[n := m], org) ==
            Admins(ms, org) - (if ActiveAdmin(ms[n], org) then 1 else 0) + if ActiveAdmin(m, org) then 1 else 0
  {
    hide ActiveAdmin, Admins;
    AdminsWithout(ms, n, org);
    AdminsWithout(ms[n := m], n, org);
    assert ms[n := m][..n] == ms[..n] && ms[n := m][n + 1..] == ms[n + 1..];
  }

  /** Resolving, promoting and seeding never take an admin away. */
  lemma {:induction false} JoinedKeepsAdmin(a: seq<Member>, b: seq<Member>, org: Id)
    requires OnlyJoined(a, b) && HasAdmin(a, org)
    ensures HasAdmin(b, org)
  {
    var m :| m in a && ActiveAdmin(m, org);
    var i :| 0 <= i < |a| && a[i] == m;
    assert b[i] in b;
  }

  lemma {:induction false} ResolvedKeepsAdmin(s: State, c: Claims, def: Default, org: Id)
    requires HasAdmin(s.members, org)
    ensures HasAdmin(Resolved(s, c, def).state.members, org)
  {
    hide Resolved, OnlyJoined, HasAdmin;
    ResolveKeepsRoles(s, c, def);
    JoinedKeepsAdmin(s.members, Resolved(s, c, def).state.members, org);
  }

  /** Changing one row of an organization keeps its last admin, and cannot touch another's. */
  lemma {:induction false} UpdateKeepsAdmin(s: State, o: Id, n: nat, role: string, org: Id)
    requires n < |s.members| && s.members[n].org == o && HasAdmin(s.members, org)
    requires !Orphans(s, o, s.members[n], role == ADMIN)
    ensures HasAdmin(s.members[n := s.members[n].(role := role)], org)
  {
    hide HasAdmin, Admins;
    var next := s.members[n := s.members[n].(role := role)];
    AdminsCount(s.members, org);
    AdminsCount(next, org);
    AdminsUpdate(s.members, n, s.members[n].(role := role), org);
  }

  lemma {:induction false} RemoveKeepsAdmin(s: State, o: Id, n: nat, org: Id)
    requires n < |s.members| && s.members[n].org == o && HasAdmin(s.members, org)
    requires !Orphans(s, o, s.members[n], false)
    ensures HasAdmin(s.members[..n] + s.members[n + 1..], org)
  {
    hide HasAdmin, Admins;
    AdminsCount(s.members, org);
    AdminsCount(s.members[..n] + s.members[n + 1..], org);
    AdminsWithout(s.members, n, org);
  }

  lemma {:induction false} MoreKeepsAdmin(ms: seq<Member>, m: Member, org: Id)
    requires HasAdmin(ms, org)
    ensures HasAdmin(ms + [m], org)
  {
    var e :| e in ms && ActiveAdmin(e, org);
    assert e in ms + [m];
  }

  lemma {:induction false} ChangedKeepsAdmin(s: State, c: Claims, def: Default, change: Change, org: Id)
    requires HasAdmin(s.members, org)
    ensures HasAdmin(Changed(s, c, def, change).state.members, org)
  {
    hide CanonicalEmail, HasAdmin, Taken, Resolved, Admins, Orphans;
    ResolvedKeepsAdmin(s, c, def, org);
    var r := Resolved(s, c, def);
    if r.caller.Ok? && r.caller.value.role == ADMIN {
      var o, ms := r.caller.value.org, r.state.members;
      match change {
        case AddMember(email, role) => MoreKeepsAdmin(ms, Member(o, "", role, CanonicalEmail(email)), org);
        case SetRole(sub, email, role) =>
          var n := Find(ms, InOrg(o, sub, email));
          if n < |ms| && !Orphans(r.state, o, ms[n], role == ADMIN) { UpdateKeepsAdmin(r.state, o, n, role, org); }
        case Remove(sub, email) =>
          var n := Find(ms, InOrg(o, sub, email));
          if n < |ms| && !Orphans(r.state, o, ms[n], false) { RemoveKeepsAdmin(r.state, o, n, org); }
      }
    }
  }

  lemma {:induction false} PromotedKeepsAdmin(s: State, o: Id, n: nat, org: Id)
    requires n < |s.members| && HasAdmin(s.members, org)
    ensures HasAdmin(Promoted(s, o, n).members, org)
  {
    hide HasAdmin, Admins, CanonicalEmail;
    var m := s.members[n];
    var k := Find(s.members, InOrg(o, m.sub, m.email));
    if k < |s.members| { UpdateKeepsAdmin(s, o, k, ADMIN, org); }
  }

  lemma {:induction false} SeededKeepsAdmin(s: State, cfg: Config, newOrg: Id, org: Id)
    requires HasAdmin(s.members, org)
    ensures HasAdmin(Seeded(s, cfg, newOrg).members, org)
  {
    hide HasAdmin, SeededSubject, SeededEmail;
    if cfg.orgSlug != "" {
      var s1 := if cfg.orgSlug in s.orgs then s else s.(orgs := s.orgs[cfg.orgSlug := newOrg]);
      var o := s1.orgs[cfg.orgSlug];
      SubjectKeepsAdmin(s1, o, cfg.adminSub, org);
      EmailKeepsAdmin(SeededSubject(s1, o, cfg.adminSub), o, cfg.adminEmail, org);
    }
  }

  lemma {:induction false} SubjectKeepsAdmin(s: State, o: Id, sub: string, org: Id)
    requires HasAdmin(s.members, org)
    ensures HasAdmin(SeededSubject(s, o, sub).members, org)
  {
    hide HasAdmin, Promoted, Find;
    var n := Find(s.members, BySubject(sub));
    MoreKeepsAdmin(s.members, Member(o, sub, ADMIN, ""), org);
    if n < |s.members| { PromotedKeepsAdmin(s, o, n, org); }
  }

  lemma {:induction false} EmailKeepsAdmin(s: State, o: Id, email: string, org: Id)
    requires HasAdmin(s.members, org)
    ensures HasAdmin(SeededEmail(s, o, email).members, org)
  {
    hide HasAdmin, Promoted, Find, CanonicalEmail, Taken;
    var n := Find(s.members, ActiveEmail(o, email));
    MoreKeepsAdmin(s.members, Member(o, "", ADMIN, CanonicalEmail(email)), org);
    if n < |s.members| { PromotedKeepsAdmin(s, o, n, org); }
  }

  lemma {:induction false} StepKeepsAdmin(s: State, def: Default, req: Request, org: Id)
    requires HasAdmin(s.members, org)
    ensures HasAdmin(Step(s, def, req).members, org)
  {
    hide HasAdmin, Resolved, Changed, Seeded;
    match req {
      case SignIn(c) => ResolvedKeepsAdmin(s, c, def, org);
      case Admin(c, change) => ChangedKeepsAdmin(s, c, def, change, org);
      case Seed(cfg, newOrg) => SeededKeepsAdmin(s, cfg, newOrg, org);
    }
  }

  /** An organization with an active admin has one after every run. */
  lemma {:induction false} AdminNeverLost(s: State, def: Default, reqs: seq<Request>, org: Id)
    requires HasAdmin(s.members, org)
    ensures HasAdmin(After(s, def, reqs).members, org)
  {
    hide HasAdmin, Step;
    if reqs != [] {
      var n := |reqs| - 1;
      AdminNeverLost(s, def, reqs[..n], org);
      StepKeepsAdmin(After(s, def, reqs[..n]), def, reqs[n], org);
    }
  }

  // ---------------------------------------------------------------- seeding

  /** In clean rows, promoting a row promotes that very row or changes nothing. */
  lemma {:induction false} PromotesItself(s: State, org: Id, n: nat)
    requires Clean(s.members) && n < |s.members| && s.members[n].sub != ""
    ensures Promoted(s, org, n) ==
            if s.members[n].role == ADMIN || s.members[n].org != org || Admins(s.members, org) > 0 then s
            else s.(members := s.members[n := s.members[n].(role := ADMIN)])
  {
    hide CanonicalEmail, Admins;
    var ms, m := s.members, s.members[n];
    if m.org == org {
      forall k | 0 <= k < n ensures !Hits(InOrg(org, m.sub, m.email), ms[k]) { assert !Clash(ms[k], ms[n]); }
      FindIs(ms, InOrg(org, m.sub, m.email), n);
    }
  }

  /** Promotion leaves nothing to promote. */
  lemma {:induction false} PromotedFixed(s: State, org: Id, n: nat)
    requires Clean(s.members) && n < |s.members| && s.members[n].sub != ""
    ensures var t := Promoted(s, org, n);
            && |t.members| == |s.members| && t.orgs == s.orgs
            && (forall i | 0 <= i < |s.members| :: t.members[i] == s.members[i].(role := t.members[i].role))
            && Promoted(t, org, n) == t
            && (s.members[n].org == org ==> HasAdmin(t.members, org))
  {
    hide CanonicalEmail, Admins, Clean, Find, HasAdmin, Promoted;
    PromotesItself(s, org, n);
    PromotedClean(s, org, n);
    PromotesItself(Promoted(s, org, n), org, n);
    if s.members[n].org == org { PromotedHasAdmin(s, org, n); }
  }

  lemma {:induction false} PromotedHasAdmin(s: State, org: Id, n: nat)
    requires Clean(s.members) && n < |s.members| && s.members[n].sub != "" && s.members[n].org == org
    ensures HasAdmin(Promoted(s, org, n).members, org)
  {
    hide CanonicalEmail, Admins, Clean, Find;
    PromotesItself(s, org, n);
    AdminsCount(s.members, org);
    var t := Promoted(s, org, n);
    assert t.members[n] in t.members;
  }

  lemma {:induction false} SubjectFixed(s: State, org: Id, sub: string)
    requires Clean(s.members)
    ensures var t := SeededSubject(s, org, sub);
            && t.orgs == s.orgs && Clean(t.members) && SeededSubject(t, org, sub) == t
            && (sub != "" && SubjectFits(s, org, sub) ==> HasAdmin(t.members, org))
  {
    hide CanonicalEmail, Clean, HasAdmin, Promoted, Find;
    SubjectClean(s, org, sub);
    var n := Find(s.members, BySubject(sub));
    if sub != "" {
      if n == |s.members| {
        SubjectAdded(s, org, sub);
      } else {
        PromotedFixed(s, org, n);
        SameFind(s.members, Promoted(s, org, n).members, BySubject(sub));
      }
    }
  }

  lemma {:induction false} SubjectAdded(s: State, org: Id, sub: string)
    requires sub != "" && Find(s.members, BySubject(sub)) == |s.members|
    ensures var t := s.(members := s.members + [Member(org, sub, ADMIN, "")]);
            SeededSubject(t, org, sub) == t && HasAdmin(t.members, org)
  {
    hide Admins;
    var t := s.(members := s.members + [Member(org, sub, ADMIN, "")]);
    FindIs(t.members, BySubject(sub), |s.members|);
    assert t.members[|s.members|] in t.members;
  }

  lemma {:induction false} FindNone(ms: seq<Member>, q: Query)
    requires forall k | 0 <= k < |ms| :: !Hits(q, ms[k])
    ensures Find(ms, q) == |ms|
  {}

  /** A query that ignores roles finds the same row after a promotion. */
  lemma {:induction false} SameFind(a: seq<Member>, b: seq<Member>, q: Query)
    requires |a| == |b| && forall i | 0 <= i < |a| :: b[i] == a[i].(role := b[i].role)
    ensures Find(a, q) == Find(b, q)
  {
    hide CanonicalEmail, Lower;
    var n := Find(a, q);
    forall i | 0 <= i < |a| ensures Hits(q, a[i]) <==> Hits(q, b[i]) {}
    if n < |a| {
      FindIs(b, q, n);
    } else {
      FindNone(b, q);
    }
  }

  /** The subject has no membership yet, or it is in this organization. */
  predicate SubjectFits(s: State, org: Id, sub: string) {
    var n := Find(s.members, BySubject(sub));
    n == |s.members| || s.members[n].org == org
  }

  lemma {:induction false} EmailFixed(s: State, org: Id, email: string)
    requires Clean(s.members)
    ensures var t := SeededEmail(s, org, email); t.orgs == s.orgs && SeededEmail(t, org, email) == t
  {
    hide CanonicalEmail, Clean, HasAdmin, Promoted, Lower, Taken, Find;
    var ms := s.members;
    if email != "" && Find(ms, Invite(email)) == |ms| {
      var n := Find(ms, ActiveEmail(org, email));
      if n < |ms| {
        assert ms[n].sub != "" by { ActiveHit(ms, org, email); }
        PromotedFixed(s, org, n);
        var t := Promoted(s, org, n);
        SameFind(ms, t.members, Invite(email));
        SameFind(ms, t.members, ActiveEmail(org, email));
      } else if !exists e | e in ms :: Taken(e, org, email) {
        InviteAdded(ms, org, email);
      }
    }
  }

  lemma {:induction false} ActiveHit(ms: seq<Member>, org: Id, email: string)
    requires Find(ms, ActiveEmail(org, email)) < |ms|
    ensures ms[Find(ms, ActiveEmail(org, email))].sub != ""
  {}

  lemma {:induction false} InviteAdded(ms: seq<Member>, org: Id, email: string)
    ensures var all := ms + [Member(org, "", ADMIN, CanonicalEmail(email))]; Find(all, Invite(email)) < |all|
  {
    hide CanonicalEmail;
    var all := ms + [Member(org, "", ADMIN, CanonicalEmail(email))];
    CanonicalTwice(email);
    assert Hits(Invite(email), all[|ms|]);
  }

  /** Seeding the email leaves what seeding the subject did alone. */
  lemma {:induction false} SubjectStillFixed(s: State, org: Id, sub: string, email: string)
    requires Clean(s.members) && SeededSubject(s, org, sub) == s
    ensures var t := SeededEmail(s, org, email); SeededSubject(t, org, sub) == t
  {
    hide CanonicalEmail, Clean, HasAdmin, Promoted, Lower, Taken, Admins;
    var ms, t := s.members, SeededEmail(s, org, email);
    if sub != "" && email != "" && Find(ms, Invite(email)) == |ms| {
      var k, n := Find(ms, BySubject(sub)), Find(ms, ActiveEmail(org, email));
      assert k < |ms| by { SubjectThere(s, org, sub); }
      EmailClean(s, org, email);
      if n < |ms| {
        PromotedFixed(s, org, n);
        SameFind(ms, t.members, BySubject(sub));
        PromotesItself(s, org, k);
        PromotesItself(t, org, k);
        PromotesItself(s, org, n);
        StillNothingToPromote(s, org, n, k);
      } else if !exists e | e in ms :: Taken(e, org, email) {
        FindIs(t.members, BySubject(sub), k);
        PromotesItself(s, org, k);
        PromotesItself(t, org, k);
        AdminsConcat(ms, [Member(org, "", ADMIN, CanonicalEmail(email))], org);
        StillEqual(s, t, org, k);
      }
    }
  }

  lemma {:induction false} StillEqual(s: State, t: State, org: Id, k: nat)
    requires Clean(s.members) && k < |s.members| && s.members[k].sub != "" && Promoted(s, org, k) == s
    ensures s.members[k].role == ADMIN || s.members[k].org != org || Admins(s.members, org) > 0
  {
    hide CanonicalEmail, Clean, Find, Promoted, Admins;
    PromotesItself(s, org, k);
    if s.members[k].role != ADMIN {
      assert s.members[k := s.members[k].(role := ADMIN)][k] != s.members[k];
    }
  }

  lemma {:induction false} StillNothingToPromote(s: State, org: Id, n: nat, k: nat)
    requires Clean(s.members) && n < |s.members| && k < |s.members| && s.members[n].sub != "" && s.members[k].sub != ""
    requires Promoted(s, org, k) == s
    ensures Promoted(Promoted(s, org, n), org, k) == Promoted(s, org, n)
  {
    hide CanonicalEmail, Clean, Find, Promoted, HasAdmin, Admins;
    var t := Promoted(s, org, n);
    PromotesItself(s, org, n);
    StillEqual(s, s, org, k);
    PromotedClean(s, org, n);
    PromotesItself(t, org, k);
    PromotedFixed(s, org, n);
    AdminsCount(s.members, org);
    AdminsCount(t.members, org);
    if HasAdmin(s.members, org) { PromotedKeepsAdmin(s, org, n, org); }
  }

  lemma {:induction false} SubjectThere(s: State, org: Id, sub: string)
    requires sub != "" && SeededSubject(s, org, sub) == s
    ensures Find(s.members, BySubject(sub)) < |s.members|
  {
    hide Promoted, Find;
    var t := SeededSubject(s, org, sub);
    assert Find(s.members, BySubject(sub)) == |s.members| ==> |t.members| == |s.members| + 1;
  }

  /** Seeding again changes nothing, whatever id a new organization would now get. */
  lemma {:induction false} SeedIdempotent(s: State, cfg: Config, newOrg: Id, later: Id)
    requires Clean(s.members)
    ensures Seeded(Seeded(s, cfg, newOrg), cfg, later) == Seeded(s, cfg, newOrg)
  {
    hide Clean, SeededSubject, SeededEmail, HasAdmin, SubjectFits;
    if cfg.orgSlug != "" {
      var s1 := if cfg.orgSlug in s.orgs then s else s.(orgs := s.orgs[cfg.orgSlug := newOrg]);
      var org := s1.orgs[cfg.orgSlug];
      var s2 := SeededSubject(s1, org, cfg.adminSub);
      SubjectFixed(s1, org, cfg.adminSub);
      EmailFixed(s2, org, cfg.adminEmail);
      SubjectStillFixed(s2, org, cfg.adminSub, cfg.adminEmail);
    }
  }

  /** With an admin subject that has no membership elsewhere, seeding ends with an active admin. */
  lemma {:induction false} SeedEndsWithAdmin(s: State, cfg: Config, newOrg: Id)
    requires Clean(s.members) && cfg.orgSlug != "" && cfg.adminSub != ""
    requires SubjectFits(s, if cfg.orgSlug in s.orgs then s.orgs[cfg.orgSlug] else newOrg, cfg.adminSub)
    ensures var t := Seeded(s, cfg, newOrg); cfg.orgSlug in t.orgs && HasAdmin(t.members, t.orgs[cfg.orgSlug])
  {
    hide Clean, SeededSubject, SeededEmail, HasAdmin, Find;
    var s1 := if cfg.orgSlug in s.orgs then s else s.(orgs := s.orgs[cfg.orgSlug := newOrg]);
    var org := s1.orgs[cfg.orgSlug];
    var s2 := SeededSubject(s1, org, cfg.adminSub);
    assert SubjectFits(s1, org, cfg.adminSub);
    SubjectFixed(s1, org, cfg.adminSub);
    EmailKeepsAdmin(s2, org, cfg.adminEmail, org);
    EmailFixed(s2, org, cfg.adminEmail);
  }

  /** While the organization has an active admin, seeding changes no stored row: a demotion stands. */
  lemma {:induction false} SeedRespectsDemotion(s: State, cfg: Config, newOrg: Id)
    requires cfg.orgSlug in s.orgs && HasAdmin(s.members, s.orgs[cfg.orgSlug])
    ensures s.members <= Seeded(s, cfg, newOrg).members
  {
    hide HasAdmin, Find, Admins, CanonicalEmail, Taken;
    if cfg.orgSlug != "" {
      var org := s.orgs[cfg.orgSlug];
      AdminsCount(s.members, org);
      var s2 := SeededSubject(s, org, cfg.adminSub);
      SubjectKeepsAdmin(s, org, cfg.adminSub, org);
      AdminsCount(s2.members, org);
    }
  }

  /** The configured email belongs to an active row of the organization, and no invite is pending for it. */
  predicate EmailFits(s: State, org: Id, email: string) {
    email != "" && Find(s.members, Invite(email)) == |s.members| &&
    Find(s.members, ActiveEmail(org, email)) < |s.members|
  }

  /** Seeding the subject gives an organization its first admin exactly when the subject fits it;
      otherwise it changes nothing. */
  lemma {:induction false} SubjectAdminIff(s: State, org: Id, sub: string)
    requires Clean(s.members) && !HasAdmin(s.members, org)
    ensures var t := SeededSubject(s, org, sub);
            && (HasAdmin(t.members, org) <==> sub != "" && SubjectFits(s, org, sub))
            && (!HasAdmin(t.members, org) ==> t == s)
  {
    hide Clean, HasAdmin, Find, Admins;
    SubjectFixed(s, org, sub);
  }

  lemma {:induction false} EmailAdminIff(s: State, org: Id, email: string)
    requires Clean(s.members) && !HasAdmin(s.members, org)
    ensures HasAdmin(SeededEmail(s, org, email).members, org) <==> EmailFits(s, org, email)
  {
    hide Clean, HasAdmin, Find, Admins, CanonicalEmail, Taken, Promoted;
    var n := Find(s.members, ActiveEmail(org, email));
    if EmailFits(s, org, email) {
      ActiveHit(s.members, org, email);
      ActiveOrg(s.members, org, email);
      PromotedHasAdmin(s, org, n);
    } else {
      NoAdminFromInvite(s.members, org, email);
    }
  }

  lemma {:induction false} ActiveOrg(ms: seq<Member>, org: Id, email: string)
    requires Find(ms, ActiveEmail(org, email)) < |ms|
    ensures ms[Find(ms, ActiveEmail(org, email))].org == org
  {}

  lemma {:induction false} NoAdminFromInvite(ms: seq<Member>, org: Id, email: string)
    requires !HasAdmin(ms, org)
    ensures !HasAdmin(ms + [Member(org, "", ADMIN, CanonicalEmail(email))], org)
  {
    hide CanonicalEmail;
  }

  /** Seeding ends with an active admin exactly when there was one, or the admin subject has no
      membership in another organization, or the admin email is that of an active member with no
      invite pending. */
  lemma {:induction false} SeedAdminIff(s: State, cfg: Config, newOrg: Id)
    requires Clean(s.members) && cfg.orgSlug != ""
    ensures var org := if cfg.orgSlug in s.orgs then s.orgs[cfg.orgSlug] else newOrg;
            HasAdmin(Seeded(s, cfg, newOrg).members, org) <==>
            || HasAdmin(s.members, org)
            || (cfg.adminSub != "" && SubjectFits(s, org, cfg.adminSub))
            || EmailFits(s, org, cfg.adminEmail)
  {
    hide Clean, HasAdmin, Find, Admins, SeededSubject, SeededEmail;
    var org := if cfg.orgSlug in s.orgs then s.orgs[cfg.orgSlug] else newOrg;
    var s1 := if cfg.orgSlug in s.orgs then s else s.(orgs := s.orgs[cfg.orgSlug := newOrg]);
    var s2 := SeededSubject(s1, org, cfg.adminSub);
    if HasAdmin(s.members, org) {
      SeededKeepsAdmin(s, cfg, newOrg, org);
    } else {
      SubjectAdminIff(s1, org, cfg.adminSub);
      if HasAdmin(s2.members, org) {
        EmailKeepsAdmin(s2, org, cfg.adminEmail, org);
      } else {
        EmailAdminIff(s1, org, cfg.adminEmail);
      }
    }
  }
}
