/** What each sign-in, admin request and seed does to the membership rows, said on the rows alone. */
module MemberRequests {
  import opened Text
  import opened Schema
  import opened Members
  import opened MemberLaws

  // ---------------------------------------------------------------- addresses

  /** The same letter, whatever its case. */
  predicate SameLetter(a: char, b: char) {
    a == b || ('A' <= a <= 'Z' && b as int == a as int + 32) || ('A' <= b <= 'Z' && a as int == b as int + 32)
  }

  /** The same text, whatever the case of its letters. */
  predicate SameFolded(a: string, b: string) {
    |a| == |b| && forall i | 0 <= i < |a| :: SameLetter(a[i], b[i])
  }

  /** The same address: outer blanks and case do not matter. */
  predicate SameAddress(a: string, b: string) { SameFolded(TrimSpace(a), TrimSpace(b)) }

  lemma {:induction false} LowerFolds(a: string, b: string)
    ensures Lower(a) == Lower(b) <==> SameFolded(a, b)
  {
    if |a| == |b| {
      forall i | 0 <= i < |a| ensures LowerChar(a[i]) == LowerChar(b[i]) <==> SameLetter(a[i], b[i]) {}
      if Lower(a) == Lower(b) {
        forall i | 0 <= i < |a| ensures SameLetter(a[i], b[i]) { assert Lower(a)[i] == Lower(b)[i]; }
      }
    } else {
      assert |Lower(a)| != |Lower(b)|;
    }
  }

  /** Two addresses have one canonical form exactly when they are the same address. */
  lemma {:induction false} CanonicalIff(a: string, b: string)
    ensures CanonicalEmail(a) == CanonicalEmail(b) <==> SameAddress(a, b)
    ensures CanonicalEmail(a) == "" <==> Blank(a)
  {
    LowerFolds(TrimSpace(a), TrimSpace(b));
    TrimEmpty(a, Spaces);
    assert |CanonicalEmail(a)| == |TrimSpace(a)|;
  }

  // ---------------------------------------------------------------- signing in

  /** Row n is the first with this subject. */
  predicate SubjectRow(ms: seq<Member>, sub: string, n: nat) {
    n < |ms| && sub != "" && ms[n].sub == sub && forall k | 0 <= k < n :: ms[k].sub != sub
  }

  /** Row n is the first invite for this address that nobody has taken up. */
  predicate InviteRow(ms: seq<Member>, email: string, n: nat) {
    && n < |ms| && ms[n].sub == "" && SameAddress(ms[n].email, email)
    && forall k | 0 <= k < n :: !(ms[k].sub == "" && SameAddress(ms[k].email, email))
  }

  lemma {:induction false} SubjectFound(ms: seq<Member>, sub: string)
    ensures var n := Find(ms, BySubject(sub));
            if n < |ms| then SubjectRow(ms, sub, n) else forall k :: !SubjectRow(ms, sub, k)
  {
    var n := Find(ms, BySubject(sub));
    forall k | 0 <= k < n ensures sub != "" ==> ms[k].sub != sub { assert !Hits(BySubject(sub), ms[k]); }
  }

  lemma {:induction false} InviteFound(ms: seq<Member>, email: string)
    ensures var n := Find(ms, Invite(email));
            if n < |ms| then InviteRow(ms, email, n) else forall k :: !InviteRow(ms, email, k)
  {
    hide CanonicalEmail, SameAddress;
    var n := Find(ms, Invite(email));
    forall k | 0 <= k < |ms|
      ensures Hits(Invite(email), ms[k]) <==> ms[k].sub == "" && SameAddress(ms[k].email, email)
    {
      CanonicalIff(ms[k].email, email);
    }
  }

  /** Signing in by an own row changes nothing and gives that row's org and role. */
  lemma {:induction false} SignInByRow(s: State, c: Claims, def: Default, n: nat)
    requires SubjectRow(s.members, c.sub, n)
    ensures Resolved(s, c, def) == Resolution(s, Ok(Caller(c.sub, c.email, s.members[n].org, s.members[n].role)))
  {
    SubjectFound(s.members, c.sub);
  }

  /** Without one, the first invite for the caller's address gets the subject, and its org and role count. */
  lemma {:induction false} SignInByInvite(s: State, c: Claims, def: Default, n: nat)
    requires c.sub != "" && (forall k :: !SubjectRow(s.members, c.sub, k)) && !Blank(c.email)
    requires InviteRow(s.members, c.email, n)
    ensures var m := s.members[n];
            Resolved(s, c, def) ==
            Resolution(s.(members := s.members[n := m.(sub := c.sub)]), Ok(Caller(c.sub, c.email, m.org, m.role)))
  {
    hide CanonicalEmail, SameAddress;
    SubjectFound(s.members, c.sub);
    InviteFound(s.members, c.email);
    CanonicalIff(c.email, c.email);
  }

  /** Without an invite either, the caller joins the default's organization in the default's role, unless
      nothing is configured, the organization is unknown, or it has a row with the caller's address. */
  lemma {:induction false} SignInByDefault(s: State, c: Claims, def: Default)
    requires c.sub != "" && (forall k :: !SubjectRow(s.members, c.sub, k))
    requires Blank(c.email) || forall k :: !InviteRow(s.members, c.email, k)
    ensures Resolved(s, c, def) ==
            if def.role == "" || def.slug == "" || def.slug !in s.orgs then Resolution(s, Err(NoMembership))
            else
              var org := s.orgs[def.slug];
              if !Blank(c.email) && exists e | e in s.members :: e.org == org && SameAddress(e.email, c.email)
              then Resolution(s, Err(NoMembership))
              else Resolution(s.(members := s.members + [Member(org, c.sub, def.role, CanonicalEmail(c.email))]),
                              Ok(Caller(c.sub, c.email, org, def.role)))
  {
    hide CanonicalEmail, SameAddress;
    SubjectFound(s.members, c.sub);
    InviteFound(s.members, c.email);
    CanonicalIff(c.email, c.email);
    NoRowOf(s.members, c.sub);
    if def.slug in s.orgs {
      var m := Member(s.orgs[def.slug], c.sub, def.role, CanonicalEmail(c.email));
      CanonicalTwice(c.email);
      forall e | e in s.members
        ensures Collides(e, m) <==> !Blank(c.email) && e.org == m.org && SameAddress(e.email, c.email)
      {
        CanonicalIff(e.email, c.email);
      }
    }
  }

  lemma {:induction false} NoRowOf(ms: seq<Member>, sub: string)
    requires sub != "" && forall k :: !SubjectRow(ms, sub, k)
    ensures forall e | e in ms :: e.sub != sub
  {
    SubjectFound(ms, sub);
    NoSubject(ms, sub);
  }

  lemma {:induction false} SignInWithout(s: State, c: Claims, def: Default)
    requires c.sub == ""
    ensures Resolved(s, c, def) == Resolution(s, Err(NoClaims))
  {}

  // ---------------------------------------------------------------- what an admin may do

  /** Row n is the first of the org with this subject or, when none is given, with this email as stored. */
  predicate TargetRow(ms: seq<Member>, org: Id, sub: string, email: string, n: nat) {
    && n < |ms| && Targets(ms[n], org, sub, email)
    && forall k | 0 <= k < n :: !Targets(ms[k], org, sub, email)
  }

  predicate Targets(m: Member, org: Id, sub: string, email: string) {
    m.org == org && if sub != "" then m.sub == sub else email != "" && m.email == email
  }

  /** An admin of the org who has signed in. */
  predicate Present(m: Member, org: Id) { m.org == org && m.role == "admin" && m.sub != "" }

  /** Two different rows of the org are such admins. */
  predicate TwoAdmins(ms: seq<Member>, org: Id) {
    exists i, j | 0 <= i < j < |ms| :: Present(ms[i], org) && Present(ms[j], org)
  }

  lemma {:induction false} TargetFound(ms: seq<Member>, org: Id, sub: string, email: string)
    ensures var n := Find(ms, InOrg(org, sub, email));
            if n < |ms| then TargetRow(ms, org, sub, email, n) else forall k :: !TargetRow(ms, org, sub, email, k)
  {
    forall k | 0 <= k < |ms| ensures Hits(InOrg(org, sub, email), ms[k]) <==> Targets(ms[k], org, sub, email) {}
  }

  lemma {:induction false} AdminsAreTwo(ms: seq<Member>, org: Id)
    ensures Admins(ms, org) >= 2 <==> TwoAdmins(ms, org)
    ensures Admins(ms, org) >= 1 <==> exists i | 0 <= i < |ms| :: Present(ms[i], org)
  {
    if ms != [] {
      var n := |ms| - 1;
      AdminsAreTwo(ms[..n], org);
      assert ActiveAdmin(ms[n], org) <==> Present(ms[n], org);
      hide ActiveAdmin, Present;
      if Present(ms[n], org) && Admins(ms[..n], org) >= 1 {
        var i :| 0 <= i < n && Present(ms[..n][i], org);
        assert Present(ms[i], org);
      }
      if TwoAdmins(ms[..n], org) {
        var i, j :| 0 <= i < j < n && Present(ms[..n][i], org) && Present(ms[..n][j], org);
        assert Present(ms[i], org) && Present(ms[j], org);
      }
      if TwoAdmins(ms, org) {
        var i, j :| 0 <= i < j < |ms| && Present(ms[i], org) && Present(ms[j], org);
        assert ms[..n][i] == ms[i];
        if j < n { assert ms[..n][j] == ms[j]; }
      }
      if i :| 0 <= i < n && Present(ms[i], org) { assert ms[..n][i] == ms[i]; }
    }
  }

  /** What an accepted change of this org's rows makes of them: one invite in the requested role joins, one
      row gets the requested role, or one row goes; and the org's last admin is neither demoted nor removed. */
  ghost predicate Did(change: Change, org: Id, before: seq<Member>, after: seq<Member>) {
    match change
    case AddMember(email, role) =>
      && email != "" && role in {"viewer", "publisher", "admin"}
      && (forall e | e in before :: !(e.org == org && SameAddress(e.email, email)))
      && after == before + [Member(org, "", role, CanonicalEmail(email))]
    case SetRole(sub, email, role) =>
      && role in {"viewer", "publisher", "admin"}
      && exists n: nat | TargetRow(before, org, sub, email, n) ::
           && (before[n].role == "admin" && role != "admin" ==> TwoAdmins(before, org))
           && after == before[n := before[n].(role := role)]
    case Remove(sub, email) =>
      exists n: nat | TargetRow(before, org, sub, email, n) ::
        && (before[n].role == "admin" ==> TwoAdmins(before, org))
        && after == before[..n] + before[n + 1..]
  }

  lemma {:induction false} OneTarget(ms: seq<Member>, org: Id, sub: string, email: string, n: nat, k: nat)
    requires TargetRow(ms, org, sub, email, n) && TargetRow(ms, org, sub, email, k)
    ensures n == k
  {}

  /** Adding, changing and removing in an org do exactly this or nothing. */
  lemma {:induction false} AddDoes(s: State, org: Id, email: string, role: string)
    ensures var o := AddedMember(s, org, email, role);
            && o.state.orgs == s.orgs && (o.error.Some? ==> o.state == s)
            && (o.error == None <==> exists after :: Did(AddMember(email, role), org, s.members, after))
            && (o.error == None ==> Did(AddMember(email, role), org, s.members, o.state.members))
  {
    hide CanonicalEmail, SameAddress;
    forall e ensures Taken(e, org, email) <==> e.org == org && SameAddress(e.email, email) {
      CanonicalIff(e.email, email);
    }
    var o := AddedMember(s, org, email, role);
    if o.error == None { assert Did(AddMember(email, role), org, s.members, o.state.members); }
  }

  lemma {:induction false} RoleDoes(s: State, org: Id, sub: string, email: string, role: string)
    ensures var o, change := RoleSet(s, org, sub, email, role), SetRole(sub, email, role);
            && o.state.orgs == s.orgs && (o.error.Some? ==> o.state == s)
            && (o.error == None <==> exists after :: Did(change, org, s.members, after))
            && (o.error == None ==> Did(change, org, s.members, o.state.members))
  {
    hide Find, Admins, TwoAdmins, Targets;
    TargetFound(s.members, org, sub, email);
    AdminsAreTwo(s.members, org);
    var o, change := RoleSet(s, org, sub, email, role), SetRole(sub, email, role);
    if o.error == None { assert Did(change, org, s.members, o.state.members); }
    var n := Find(s.members, InOrg(org, sub, email));
    if after :| Did(change, org, s.members, after) {
      var k: nat :| k < |s.members| && TargetRow(s.members, org, sub, email, k) &&
                    (s.members[k].role == "admin" && role != "admin" ==> TwoAdmins(s.members, org));
      OneTarget(s.members, org, sub, email, n, k);
    }
  }

  lemma {:induction false} RemoveDoes(s: State, org: Id, sub: string, email: string)
    ensures var o, change := MemberRemoved(s, org, sub, email), Remove(sub, email);
            && o.state.orgs == s.orgs && (o.error.Some? ==> o.state == s)
            && (o.error == None <==> exists after :: Did(change, org, s.members, after))
            && (o.error == None ==> Did(change, org, s.members, o.state.members))
  {
    hide Find, Admins, TwoAdmins, Targets;
    TargetFound(s.members, org, sub, email);
    AdminsAreTwo(s.members, org);
    var o, change := MemberRemoved(s, org, sub, email), Remove(sub, email);
    if o.error == None { assert Did(change, org, s.members, o.state.members); }
    var n := Find(s.members, InOrg(org, sub, email));
    if after :| Did(change, org, s.members, after) {
      var k: nat :| k < |s.members| && TargetRow(s.members, org, sub, email, k) &&
                    (s.members[k].role == "admin" ==> TwoAdmins(s.members, org));
      OneTarget(s.members, org, sub, email, n, k);
    }
  }

  /** The caller's subject has an admin row. */
  predicate AdminRow(ms: seq<Member>, sub: string, n: nat) { SubjectRow(ms, sub, n) && ms[n].role == "admin" }

  lemma {:induction false} SignedIn(s: State, c: Claims, def: Default) returns (n: nat)
    requires Resolved(s, c, def).caller.Ok?
    ensures var r := Resolved(s, c, def);
            && SubjectRow(r.state.members, c.sub, n)
            && r.caller.value.org == r.state.members[n].org && r.caller.value.role == r.state.members[n].role
  {
    hide Find, First, CanonicalEmail, Collides;
    var r := Resolved(s, c, def);
    ResolveTwice(s, c, def, c.email, def);
    var again := Resolved(r.state, c, def);
    SubjectFound(s.members, c.sub);
    n := Find(r.state.members, BySubject(c.sub));
    SubjectFound(r.state.members, c.sub);
    RowAfter(s, c, def);
  }

  /** Whoever was let in has a row. */
  lemma {:induction false} RowAfter(s: State, c: Claims, def: Default)
    requires Resolved(s, c, def).caller.Ok?
    ensures var r := Resolved(s, c, def);
            c.sub != "" && exists e | e in r.state.members :: e.sub == c.sub
  {
    hide CanonicalEmail, Collides;
    var r := Resolved(s, c, def);
    var n, p := Find(s.members, BySubject(c.sub)), Find(s.members, Invite(c.email));
    if n < |s.members| {
      assert s.members[n] in r.state.members;
    } else if CanonicalEmail(c.email) != "" && p < |s.members| {
      assert r.state.members[p] in r.state.members && r.state.members[p].sub == c.sub;
    } else {
      assert r.state.members[|s.members|] in r.state.members;
    }
  }

  /** A change is made exactly when the caller has signed in as an admin and the change fits the rows of the
      org of that very row, and then it is all that happens to the rows after sign-in; a refused change leaves
      the rows as the sign-in left them, and a caller who is no admin is told so. */
  lemma {:induction false} ChangedExactly(s: State, c: Claims, def: Default, change: Change)
    ensures var r, o := Resolved(s, c, def), Changed(s, c, def, change);
            var ms := r.state.members;
            && o.state.orgs == r.state.orgs && (o.error.Some? ==> o.state.members == ms)
            && (o.error == None ==>
                  exists n: nat | AdminRow(ms, c.sub, n) :: Did(change, ms[n].org, ms, o.state.members))
            && (o.error == None <==>
                  exists n: nat, after | AdminRow(ms, c.sub, n) :: Did(change, ms[n].org, ms, after))
            && (r.caller.Ok? && (forall n :: !AdminRow(ms, c.sub, n)) ==> o.error == Some(NotAdmin))
  {
    hide Resolved, Did, AddedMember, RoleSet, MemberRemoved;
    var r, o := Resolved(s, c, def), Changed(s, c, def, change);
    var ms := r.state.members;
    if r.caller.Ok? {
      var n := SignedIn(s, c, def);
      var org := ms[n].org;
      forall k | SubjectRow(ms, c.sub, k) ensures k == n { OneRow(ms, c.sub, n, k); }
      match change {
        case AddMember(email, role) => AddDoes(r.state, org, email, role);
        case SetRole(sub, email, role) => RoleDoes(r.state, org, sub, email, role);
        case Remove(sub, email) => RemoveDoes(r.state, org, sub, email);
      }
      if r.caller.value.role == ADMIN {
        assert AdminRow(ms, c.sub, n);
        assert o.error == None <==> exists after :: Did(change, org, ms, after);
        assert o.error == None ==> Did(change, org, ms, o.state.members);
      }
    } else {
      RefusedHasNoRow(s, c, def);
    }
  }

  lemma {:induction false} OneRow(ms: seq<Member>, sub: string, n: nat, k: nat)
    requires SubjectRow(ms, sub, n) && SubjectRow(ms, sub, k)
    ensures n == k
  {}

  lemma {:induction false} RefusedHasNoRow(s: State, c: Claims, def: Default)
    requires Resolved(s, c, def).caller.Err?
    ensures Resolved(s, c, def).state == s && forall k :: !SubjectRow(s.members, c.sub, k)
  {
    hide CanonicalEmail, Collides;
    SubjectFound(s.members, c.sub);
  }

  // ---------------------------------------------------------------- what seeding writes

  /** The row is made an admin when it is one of the org, is none yet, and the org has none present. */
  function Risen(ms: seq<Member>, org: Id, n: nat): seq<Member>
    requires n < |ms|
  {
    if ms[n].org == org && ms[n].role != "admin" && forall i | 0 <= i < |ms| :: !Present(ms[i], org)
    then ms[n := ms[n].(role := "admin")]
    else ms
  }

  lemma {:induction false} PromotedIs(s: State, org: Id, n: nat)
    requires MemberLaws.Clean(s.members) && n < |s.members| && s.members[n].sub != ""
    ensures Promoted(s, org, n) == s.(members := Risen(s.members, org, n))
  {
    hide MemberLaws.Clean, Admins, Promoted, Present;
    PromotesItself(s, org, n);
    AdminsAreTwo(s.members, org);
  }

  /** Seeding a subject: its row rises, or a new admin row joins. */
  lemma {:induction false} SubjectSeeded(s: State, org: Id, sub: string)
    requires MemberLaws.Clean(s.members) && sub != ""
    ensures forall n | SubjectRow(s.members, sub, n) ::
              SeededSubject(s, org, sub) == s.(members := Risen(s.members, org, n))
    ensures (forall n :: !SubjectRow(s.members, sub, n)) ==>
              SeededSubject(s, org, sub) == s.(members := s.members + [Member(org, sub, "admin", "")])
  {
    hide MemberLaws.Clean, Find, Promoted, Risen;
    SubjectFound(s.members, sub);
    forall n | SubjectRow(s.members, sub, n)
      ensures SeededSubject(s, org, sub) == s.(members := Risen(s.members, org, n))
    {
      OneRow(s.members, sub, Find(s.members, BySubject(sub)), n);
      PromotedIs(s, org, n);
    }
  }

  /** Row n is the first of the org that has signed in with this address, typed without outer blanks. */
  predicate ActiveRow(ms: seq<Member>, org: Id, email: string, n: nat) {
    && n < |ms| && SignedInAs(ms[n], org, email)
    && forall k | 0 <= k < n :: !SignedInAs(ms[k], org, email)
  }

  predicate SignedInAs(m: Member, org: Id, email: string) { m.org == org && m.sub != "" && SameFolded(m.email, email) }

  lemma {:induction false} ActiveFound(ms: seq<Member>, org: Id, email: string)
    ensures var n := Find(ms, ActiveEmail(org, email));
            if n < |ms| then ActiveRow(ms, org, email, n) else forall k :: !ActiveRow(ms, org, email, k)
  {
    hide SameFolded, Lower;
    forall k | 0 <= k < |ms| ensures Hits(ActiveEmail(org, email), ms[k]) <==> SignedInAs(ms[k], org, email) {
      LowerFolds(ms[k].email, email);
    }
  }

  /** Seeding an email: nothing while an invite for it is open; else its active row rises; else an admin
      invite joins, unless the org has a row with the address. */
  lemma {:induction false} EmailSeeded(s: State, org: Id, email: string)
    requires MemberLaws.Clean(s.members) && email != ""
    ensures var ms, t := s.members, SeededEmail(s, org, email);
            && ((exists n :: InviteRow(ms, email, n)) ==> t == s)
            && ((forall n :: !InviteRow(ms, email, n)) ==>
                  && (forall n | ActiveRow(ms, org, email, n) :: t == s.(members := Risen(ms, org, n)))
                  && ((forall n :: !ActiveRow(ms, org, email, n)) ==>
                        t == if exists e | e in ms :: e.org == org && SameAddress(e.email, email) then s
                             else s.(members := ms + [Member(org, "", "admin", CanonicalEmail(email))])))
  {
    hide MemberLaws.Clean, Find, Promoted, Risen, CanonicalEmail, SameAddress, SignedInAs, InviteRow;
    var ms := s.members;
    InviteFound(ms, email);
    ActiveFound(ms, org, email);
    forall e ensures Taken(e, org, email) <==> e.org == org && SameAddress(e.email, email) {
      CanonicalIff(e.email, email);
    }
    var k := Find(ms, ActiveEmail(org, email));
    forall n: nat | ActiveRow(ms, org, email, n) ensures n == k {}
    if k < |ms| {
      ActiveHit(ms, org, email);
      PromotedIs(s, org, k);
    }
  }

  /** The organization a seed works on: the one under the slug, or a new one that changes no other. */
  lemma {:induction false} SeedOrgs(s: State, cfg: Config, newOrg: Id)
    ensures var t := Seeded(s, cfg, newOrg);
            if cfg.orgSlug == "" then t == s
            else t.orgs == if cfg.orgSlug in s.orgs then s.orgs else s.orgs[cfg.orgSlug := newOrg]
  {
    hide Find, Promoted, CanonicalEmail, Taken;
    forall u: State, org, n: nat | n < |u.members| ensures Promoted(u, org, n).orgs == u.orgs { RaisedOrgs(u, org, n); }
  }

  lemma {:induction false} RaisedOrgs(s: State, org: Id, n: nat)
    requires n < |s.members|
    ensures Promoted(s, org, n).orgs == s.orgs
  {
    hide Find, Admins;
  }
}
