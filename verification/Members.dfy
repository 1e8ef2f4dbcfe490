/** Memberships: the store's rows, how a caller is resolved to one, and the requests that change them. */
module Members {
  import opened Text
  import opened Schema

  type Id = string

  /** A membership row; an empty subject is a pending invite. */
  datatype Member = Member(org: Id, sub: string, role: string, email: string)

  const ADMIN := "admin"
  const ROLES: set<string> := {"viewer", "publisher", "admin"}

  function LowerChar(c: char): char { if 'A' <= c <= 'Z' then (c as int + 32) as char else c }

  function Lower(s: string): (r: string)
    ensures |r| == |s| && forall i | 0 <= i < |s| :: r[i] == LowerChar(s[i])
  {
    seq(|s|, i requires 0 <= i < |s| => LowerChar(s[i]))
  }

  function CanonicalEmail(email: string): string { Lower(TrimSpace(email)) }

  // ---------------------------------------------------------------- looking rows up

  /** What the store's scans look for. */
  datatype Query =
    | BySubject(sub: string)
    | Invite(email: string)
    | InOrg(org: Id, sub: string, email: string)
    | ActiveEmail(org: Id, email: string)

  predicate Hits(q: Query, m: Member) {
    match q
    case BySubject(sub) => m.sub == sub && sub != ""
    case Invite(email) => m.sub == "" && CanonicalEmail(m.email) == CanonicalEmail(email)
    case InOrg(org, sub, email) =>
      m.org == org && ((sub != "" && m.sub == sub) || (sub == "" && email != "" && m.email == email))
    case ActiveEmail(org, email) => m.org == org && Lower(m.email) == Lower(email) && m.sub != ""
  }

  /** The first row from i on that q hits, or the number of rows. */
  function First(ms: seq<Member>, q: Query, i: nat): (n: nat)
    requires i <= |ms|
    ensures i <= n <= |ms|
    ensures n < |ms| ==> Hits(q, ms[n])
    ensures forall k | i <= k < n :: !Hits(q, ms[k])
    decreases |ms| - i
  {
    if i < |ms| && !Hits(q, ms[i]) then First(ms, q, i + 1) else i
  }

  function Find(ms: seq<Member>, q: Query): (n: nat)
    ensures n <= |ms|
    ensures n < |ms| ==> Hits(q, ms[n])
    ensures forall k | 0 <= k < n :: !Hits(q, ms[k])
  {
    First(ms, q, 0)
  }

  predicate ActiveAdmin(m: Member, org: Id) { m.org == org && m.role == ADMIN && m.sub != "" }

  function Admins(ms: seq<Member>, org: Id): nat {
    if ms == [] then 0
    else Admins(ms[..|ms| - 1], org) + if ActiveAdmin(ms[|ms| - 1], org) then 1 else 0
  }

  /** A row that an insert of m would collide with. */
  predicate Collides(e: Member, m: Member) {
    || (e.sub == m.sub && m.sub != "")
    || (CanonicalEmail(m.email) != "" && e.org == m.org && CanonicalEmail(e.email) == CanonicalEmail(m.email))
  }

  predicate Taken(e: Member, org: Id, email: string) {
    e.org == org && CanonicalEmail(e.email) == CanonicalEmail(email)
  }

  // ---------------------------------------------------------------- the state and its requests

  /** The organizations by slug, and the membership rows in insertion order. */
  datatype State = State(orgs: map<string, Id>, members: seq<Member>)

  datatype Claims = Claims(sub: string, email: string)
  datatype Default = Default(role: string, slug: string)
  datatype Caller = Caller(sub: string, email: string, org: Id, role: string)

  datatype Failure = NoClaims | NoMembership | NotAdmin | BadRequest | MemberExists | NoMember | LastAdmin

  datatype Resolution = Resolution(state: State, caller: Result<Caller, Failure>)

  function CallerFor(c: Claims, m: Member): Caller { Caller(c.sub, c.email, m.org, m.role) }

  function Activated(s: State, n: nat, sub: string): State
    requires n < |s.members|
  {
    s.(members := s.members[n := s.members[n].(sub := sub)])
  }

  function Provisioned(s: State, c: Claims, def: Default): Resolution {
    if def.role == "" || def.slug == "" || def.slug !in s.orgs then Resolution(s, Err(NoMembership))
    else
      var m := Member(s.orgs[def.slug], c.sub, def.role, CanonicalEmail(c.email));
      if exists e | e in s.members :: Collides(e, m) then Resolution(s, Err(NoMembership))
      else Resolution(s.(members := s.members + [m]), Ok(CallerFor(c, m)))
  }

  /** ResolveCaller: the subject's row, else a pending invite for the email, else the default. */
  function Resolved(s: State, c: Claims, def: Default): Resolution {
    if c.sub == "" then Resolution(s, Err(NoClaims))
    else
      var n := Find(s.members, BySubject(c.sub));
      if n < |s.members| then Resolution(s, Ok(CallerFor(c, s.members[n])))
      else
        var p := Find(s.members, Invite(c.email));
        if CanonicalEmail(c.email) != "" && p < |s.members| then
          Resolution(Activated(s, p, c.sub), Ok(CallerFor(c, s.members[p])))
        else Provisioned(s, c, def)
  }

  datatype Outcome = Outcome(state: State, error: Option<Failure>)

  function AddedMember(s: State, org: Id, email: string, role: string): Outcome {
    if email == "" || role !in ROLES then Outcome(s, Some(BadRequest))
    else if exists e | e in s.members :: Taken(e, org, email) then Outcome(s, Some(MemberExists))
    else Outcome(s.(members := s.members + [Member(org, "", role, CanonicalEmail(email))]), None)
  }

  function Orphans(s: State, org: Id, target: Member, becomesAdmin: bool): bool {
    target.role == ADMIN && !becomesAdmin && Admins(s.members, org) <= 1
  }

  function RoleSet(s: State, org: Id, sub: string, email: string, role: string): Outcome {
    if role !in ROLES then Outcome(s, Some(BadRequest))
    else
      var n := Find(s.members, InOrg(org, sub, email));
      if n == |s.members| then Outcome(s, Some(NoMember))
      else if Orphans(s, org, s.members[n], role == ADMIN) then Outcome(s, Some(LastAdmin))
      else Outcome(s.(members := s.members[n := s.members[n].(role := role)]), None)
  }

  function MemberRemoved(s: State, org: Id, sub: string, email: string): Outcome {
    var n := Find(s.members, InOrg(org, sub, email));
    if n == |s.members| then Outcome(s, Some(NoMember))
    else if Orphans(s, org, s.members[n], false) then Outcome(s, Some(LastAdmin))
    else Outcome(s.(members := s.members[..n] + s.members[n + 1..]), None)
  }

  /** What an admin asks for. */
  datatype Change =
    | AddMember(email: string, role: string)
    | SetRole(sub: string, email: string, role: string)
    | Remove(sub: string, email: string)

  /** A handler: the caller is resolved first, which may itself add or activate a row. */
  function Changed(s: State, c: Claims, def: Default, change: Change): Outcome {
    var r := Resolved(s, c, def);
    if r.caller.Err? then Outcome(r.state, Some(r.caller.error))
    else if r.caller.value.role != ADMIN then Outcome(r.state, Some(NotAdmin))
    else
      var org := r.caller.value.org;
      match change
      case AddMember(email, role) => AddedMember(r.state, org, email, role)
      case SetRole(sub, email, role) => RoleSet(r.state, org, sub, email, role)
      case Remove(sub, email) => MemberRemoved(r.state, org, sub, email)
  }

  // ---------------------------------------------------------------- seeding

  datatype Config = Config(orgSlug: string, adminSub: string, adminEmail: string)

  /** promoteIfNoAdmins, for row n. */
  function Promoted(s: State, org: Id, n: nat): State
    requires n < |s.members|
  {
    var m := s.members[n];
    if m.role == ADMIN || m.org != org || Admins(s.members, org) > 0 then s
    else
      var k := Find(s.members, InOrg(org, m.sub, m.email));
      if k == |s.members| then s else s.(members := s.members[k := s.members[k].(role := ADMIN)])
  }

  function SeededSubject(s: State, org: Id, sub: string): State {
    if sub == "" then s
    else
      var n := Find(s.members, BySubject(sub));
      if n == |s.members| then s.(members := s.members + [Member(org, sub, ADMIN, "")]) else Promoted(s, org, n)
  }

  function SeededEmail(s: State, org: Id, email: string): State {
    if email == "" || Find(s.members, Invite(email)) < |s.members| then s
    else
      var n := Find(s.members, ActiveEmail(org, email));
      if n < |s.members| then Promoted(s, org, n)
      else if exists e | e in s.members :: Taken(e, org, email) then s
      else s.(members := s.members + [Member(org, "", ADMIN, CanonicalEmail(email))])
  }

  /** seed.Run; newOrg is the id a new organization would get. */
  function Seeded(s: State, cfg: Config, newOrg: Id): State {
    if cfg.orgSlug == "" then s
    else
      var s1 := if cfg.orgSlug in s.orgs then s else s.(orgs := s.orgs[cfg.orgSlug := newOrg]);
      var org := s1.orgs[cfg.orgSlug];
      SeededEmail(SeededSubject(s1, org, cfg.adminSub), org, cfg.adminEmail)
  }

  // ---------------------------------------------------------------- the directory

  /** The rows, changed in place. */
  class Directory {
    var orgs: map<string, Id>
    var members: seq<Member>

    ghost function Now(): State
      reads this
    {
      State(orgs, members)
    }

    constructor ()
      ensures Now() == State(map[], [])
    {
      orgs, members := map[], [];
    }

    method GetMembership(sub: string) returns (n: nat)
      ensures n == Find(members, BySubject(sub))
    {
      n := 0;
      while n < |members|
        invariant n <= |members| && First(members, BySubject(sub), 0) == First(members, BySubject(sub), n)
      {
        if members[n].sub == sub && sub != "" { return; }
        n := n + 1;
      }
    }

    method GetPendingMembershipByEmail(email: string) returns (n: nat)
      ensures n == Find(members, Invite(email))
    {
      hide CanonicalEmail;
      n := 0;
      while n < |members|
        invariant n <= |members| && First(members, Invite(email), 0) == First(members, Invite(email), n)
      {
        if members[n].sub == "" && CanonicalEmail(members[n].email) == CanonicalEmail(email) { return; }
        n := n + 1;
      }
    }

    method CountAdmins(org: Id) returns (count: nat)
      ensures count == Admins(members, org)
    {
      count := 0;
      assert members[..0] == [];
      for i := 0 to |members|
        invariant count == Admins(members[..i], org)
      {
        assert members[..i + 1][..i] == members[..i];
        var m := members[i];
        if m.org == org && m.role == ADMIN && m.sub != "" { count := count + 1; }
      }
      assert members[..|members|] == members;
    }

    method CreateMembership(m: Member) returns (ok: bool)
      modifies this
      ensures ok <==> !exists e | e in old(members) :: Collides(e, m)
      ensures orgs == old(orgs)
      ensures members == if ok then old(members) + [m.(email := CanonicalEmail(m.email))] else old(members)
    {
      hide CanonicalEmail;
      for i := 0 to |members|
        invariant forall k | 0 <= k < i :: !Collides(members[k], m)
      {
        assert members[i] in members;
        if members[i].sub == m.sub && m.sub != "" { return false; }
        if CanonicalEmail(m.email) != "" && members[i].org == m.org &&
           CanonicalEmail(members[i].email) == CanonicalEmail(m.email)
        {
          return false;
        }
      }
      members := members + [m.(email := CanonicalEmail(m.email))];
      return true;
    }

    method AddPendingMembership(org: Id, role: string, email: string) returns (ok: bool)
      modifies this
      ensures ok <==> !exists e | e in old(members) :: Taken(e, org, email)
      ensures orgs == old(orgs)
      ensures members == if ok then old(members) + [Member(org, "", role, CanonicalEmail(email))] else old(members)
    {
      hide CanonicalEmail;
      for i := 0 to |members|
        invariant forall k | 0 <= k < i :: !Taken(members[k], org, email)
      {
        assert members[i] in members;
        if members[i].org == org && CanonicalEmail(members[i].email) == CanonicalEmail(email) { return false; }
      }
      members := members + [Member(org, "", role, CanonicalEmail(email))];
      return true;
    }

    /** The first pending row for this email gets the subject. */
    method ActivatePendingMembership(email: string, sub: string) returns (ok: bool)
      modifies this
      ensures orgs == old(orgs)
      ensures var n := Find(old(members), Invite(email));
              && (ok <==> n < |old(members)|)
              && members == if ok then old(members)[n := old(members)[n].(sub := sub)] else old(members)
    {
      hide CanonicalEmail;
      var n := GetPendingMembershipByEmail(email);
      if n == |members| { return false; }
      members := members[n := members[n].(sub := sub)];
      return true;
    }

    method UpdateMembershipRole(org: Id, sub: string, email: string, role: string) returns (ok: bool)
      modifies this
      ensures orgs == old(orgs)
      ensures var n := Find(old(members), InOrg(org, sub, email));
              && (ok <==> n < |old(members)|)
              && members == if ok then old(members)[n := old(members)[n].(role := role)] else old(members)
    {
      var n := FindMember(org, sub, email);
      if n == |members| { return false; }
      members := members[n := members[n].(role := role)];
      return true;
    }

    method DeleteMembership(org: Id, sub: string, email: string) returns (ok: bool)
      modifies this
      ensures orgs == old(orgs)
      ensures var n := Find(old(members), InOrg(org, sub, email));
              && (ok <==> n < |old(members)|)
              && members == if ok then old(members)[..n] + old(members)[n + 1..] else old(members)
    {
      var n := FindMember(org, sub, email);
      if n == |members| { return false; }
      members := members[..n] + members[n + 1..];
      return true;
    }

    /** The first of the org's rows with this subject, or, without a subject, with this email. */
    method FindMember(org: Id, sub: string, email: string) returns (n: nat)
      ensures n == Find(members, InOrg(org, sub, email))
    {
      n := 0;
      while n < |members|
        invariant n <= |members|
        invariant First(members, InOrg(org, sub, email), 0) == First(members, InOrg(org, sub, email), n)
      {
        var m := members[n];
        if m.org == org && ((sub != "" && m.sub == sub) || (sub == "" && email != "" && m.email == email)) { return; }
        n := n + 1;
      }
    }

    method ResolveCaller(c: Claims, def: Default) returns (r: Result<Caller, Failure>)
      modifies this
      ensures Resolution(Now(), r) == Resolved(old(Now()), c, def)
    {
      hide CanonicalEmail, Collides, First;
      if c.sub == "" { return Err(NoClaims); }
      var n := GetMembership(c.sub);
      if n < |members| { return Ok(CallerFor(c, members[n])); }
      if CanonicalEmail(c.email) != "" {
        var p := GetPendingMembershipByEmail(CanonicalEmail(c.email));
        CanonicalInvite(members, c.email);
        if p < |members| {
          var pending := members[p];
          ActivatesSame(members, p, c.email);
          var ok := ActivatePendingMembership(pending.email, c.sub);
          return Ok(CallerFor(c, pending));
        }
      }
      if def.role == "" || def.slug == "" { return Err(NoMembership); }
      if def.slug !in orgs { return Err(NoMembership); }
      var m := Member(orgs[def.slug], c.sub, def.role, CanonicalEmail(c.email));
      CanonicalTwice(c.email);
      var ok := CreateMembership(m);
      if !ok {
        var k := GetMembership(c.sub);
        assert k == |members|;
        return Err(NoMembership);
      }
      return Ok(CallerFor(c, m));
    }

    /** The three admin handlers, each behind requireAdmin. */
    method Handle(c: Claims, def: Default, change: Change) returns (error: Option<Failure>)
      modifies this
      ensures Outcome(Now(), error) == Changed(old(Now()), c, def, change)
    {
      hide Resolved, CanonicalEmail, Taken, Find;
      var r := ResolveCaller(c, def);
      if r.Err? { return Some(r.error); }
      if r.value.role != ADMIN { return Some(NotAdmin); }
      var org := r.value.org;
      match change {
        case AddMember(email, role) =>
          if email == "" || role !in ROLES { return Some(BadRequest); }
          var ok := AddPendingMembership(org, role, email);
          return if ok then None else Some(MemberExists);
        case SetRole(sub, email, role) =>
          if role !in ROLES { return Some(BadRequest); }
          var n := FindMember(org, sub, email);
          if n == |members| { return Some(NoMember); }
          var orphan := WouldOrphanAdmins(org, members[n].role == ADMIN, role == ADMIN);
          if orphan { return Some(LastAdmin); }
          var _ := UpdateMembershipRole(org, sub, email, role);
          return None;
        case Remove(sub, email) =>
          var n := FindMember(org, sub, email);
          if n == |members| { return Some(NoMember); }
          var orphan := WouldOrphanAdmins(org, members[n].role == ADMIN, false);
          if orphan { return Some(LastAdmin); }
          var _ := DeleteMembership(org, sub, email);
          return None;
      }
    }

    method WouldOrphanAdmins(org: Id, targetIsAdmin: bool, becomesAdmin: bool) returns (orphan: bool)
      ensures orphan <==> targetIsAdmin && !becomesAdmin && Admins(members, org) <= 1
    {
      if !targetIsAdmin || becomesAdmin { return false; }
      var n := CountAdmins(org);
      return n <= 1;
    }

    method PromoteIfNoAdmins(org: Id, n: nat)
      requires n < |members|
      modifies this
      ensures Now() == Promoted(old(Now()), org, n)
    {
      hide Find, Admins;
      var m := members[n];
      if m.role == ADMIN || m.org != org { return; }
      var admins := CountAdmins(org);
      if admins > 0 { return; }
      var _ := UpdateMembershipRole(org, m.sub, m.email, ADMIN);
    }

    /** UpsertMembership as seeding uses it: the row with this subject is replaced, else one is added. */
    method UpsertMembership(m: Member)
      modifies this
      ensures orgs == old(orgs)
      ensures var n, row := Find(old(members), BySubject(m.sub)), m.(email := CanonicalEmail(m.email));
              members == if n < |old(members)| then old(members)[n := row] else old(members) + [row]
    {
      hide CanonicalEmail;
      var n := GetMembership(m.sub);
      var row := m.(email := CanonicalEmail(m.email));
      if n < |members| { members := members[n := row]; } else { members := members + [row]; }
    }

    method SeedRun(cfg: Config, newOrg: Id)
      modifies this
      ensures Now() == Seeded(old(Now()), cfg, newOrg)
    {
      hide Find, Promoted, CanonicalEmail, Taken;
      if cfg.orgSlug == "" { return; }
      if cfg.orgSlug !in orgs { orgs := orgs[cfg.orgSlug := newOrg]; }
      var org := orgs[cfg.orgSlug];
      if cfg.adminSub != "" {
        var n := GetMembership(cfg.adminSub);
        if n == |members| {
          EmptyCanonical();
          UpsertMembership(Member(org, cfg.adminSub, ADMIN, ""));
        } else {
          PromoteIfNoAdmins(org, n);
        }
      }
      if cfg.adminEmail != "" { SeedEmail(org, cfg.adminEmail); }
    }

    method SeedEmail(org: Id, email: string)
      requires email != ""
      modifies this
      ensures Now() == SeededEmail(old(Now()), org, email)
    {
      hide Promoted, CanonicalEmail, Taken, Lower;
      var p := GetPendingMembershipByEmail(email);
      if p < |members| { return; }
      for n := 0 to |members|
        invariant Now() == old(Now())
        invariant First(members, ActiveEmail(org, email), 0) == First(members, ActiveEmail(org, email), n)
      {
        if members[n].org == org && Lower(members[n].email) == Lower(email) && members[n].sub != "" {
          PromoteIfNoAdmins(org, n);
          return;
        }
      }
      var _ := AddPendingMembership(org, ADMIN, email);
    }
  }

  lemma {:induction false} EmptyCanonical()
    ensures CanonicalEmail("") == ""
  {
    TrimFixed("", Spaces);
  }

  lemma {:induction false} LowerTwice(s: string)
    ensures Lower(Lower(s)) == Lower(s)
  {}

  /** A canonical email is its own canonical form. */
  lemma {:induction false} CanonicalTwice(email: string)
    ensures CanonicalEmail(CanonicalEmail(email)) == CanonicalEmail(email)
  {
    var t := TrimSpace(email);
    var a, b := TrimParts(email, Spaces);
    forall i | 0 <= i < |t| ensures IsSpace(Lower(t)[i]) <==> IsSpace(t[i]) { LowerSpace(t[i]); }
    TrimFixed(Lower(t), Spaces);
    LowerTwice(t);
  }

  lemma {:induction false} LowerSpace(c: char)
    ensures IsSpace(LowerChar(c)) <==> IsSpace(c)
  {}

  lemma {:induction false} SameHits(ms: seq<Member>, q: Query, r: Query, i: nat)
    requires i <= |ms| && forall k | 0 <= k < |ms| :: Hits(q, ms[k]) <==> Hits(r, ms[k])
    ensures First(ms, q, i) == First(ms, r, i)
    decreases |ms| - i
  {
    hide Hits;
    if i < |ms| && !Hits(q, ms[i]) { SameHits(ms, q, r, i + 1); }
  }

  lemma {:induction false} CanonicalInvite(ms: seq<Member>, email: string)
    ensures Find(ms, Invite(CanonicalEmail(email))) == Find(ms, Invite(email))
  {
    hide CanonicalEmail;
    CanonicalTwice(email);
    SameHits(ms, Invite(CanonicalEmail(email)), Invite(email), 0);
  }

  /** Activating by the stored address reaches the row that the lookup returned. */
  lemma {:induction false} ActivatesSame(ms: seq<Member>, p: nat, email: string)
    requires p == Find(ms, Invite(email)) < |ms|
    ensures Find(ms, Invite(ms[p].email)) == p
  {
    hide CanonicalEmail;
    SameHits(ms, Invite(ms[p].email), Invite(email), 0);
  }
}
