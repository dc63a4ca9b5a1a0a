/** Role capabilities, per-user overrides, and the permission templates staff accounts are created from. */
module Permissions {
  import opened Wrappers

  datatype Role = ItSupport | Admin | PrintStaff | SupportStaff | ContentManager | Student | NormalUser

  /** Capability codes. Overrides and templates may hold any other text as well. */
  datatype Code =
    | Wildcard | DashboardAccess | SystemManage | UsersManage | AcademicManage | VerificationReview | EnrollmentReview
    | GroupsManage | ExternalChannelsManage | FilesManage | LecturesManage | PrintingManage | SupportManage
    | AnnouncementsManage | AuditView | FeedbackManage | ProductManage | FinanceManage
    | Other(text: nat)

  function Defaults(role: Role): set<Code> {
    match role
    case ItSupport => {Wildcard}
    case Admin =>
      {DashboardAccess, UsersManage, AcademicManage, VerificationReview, EnrollmentReview, GroupsManage,
       ExternalChannelsManage, FilesManage, LecturesManage, PrintingManage, SupportManage, AnnouncementsManage,
       AuditView, FeedbackManage, ProductManage, FinanceManage}
    case PrintStaff => {DashboardAccess, PrintingManage}
    case SupportStaff => {DashboardAccess, SupportManage, FeedbackManage}
    case ContentManager =>
      {DashboardAccess, AcademicManage, GroupsManage, ExternalChannelsManage, FilesManage, LecturesManage,
       AnnouncementsManage}
    case Student => {}
    case NormalUser => {}
  }

  predicate Named(code: Code) {
    !code.Wildcard? && !code.Other?
  }

  /** By role alone an administrator holds every named capability but system.manage, every other role but IT Support
      holds some of those, and only IT Support holds system.manage. */
  lemma RolesNestBelowTheAdministrator(role: Role, code: Code)
    ensures code in Defaults(Admin) <==> Named(code) && code != SystemManage
    ensures !role.ItSupport? ==> Defaults(role) <= Defaults(Admin)
    ensures Wildcard in Defaults(role) <==> role.ItSupport?
  {
  }

  /** The same table read the other way: which roles hold each capability by role alone. */
  lemma WhoHoldsWhat(role: Role)
    ensures DashboardAccess in Defaults(role) <==> role in {Admin, PrintStaff, SupportStaff, ContentManager}
    ensures PrintingManage in Defaults(role) <==> role in {Admin, PrintStaff}
    ensures SupportManage in Defaults(role) <==> role in {Admin, SupportStaff}
    ensures FeedbackManage in Defaults(role) <==> role in {Admin, SupportStaff}
    ensures forall code <- {AcademicManage, GroupsManage, ExternalChannelsManage, FilesManage, LecturesManage,
                            AnnouncementsManage} :: code in Defaults(role) <==> role in {Admin, ContentManager}
    ensures forall code <- {UsersManage, VerificationReview, EnrollmentReview, AuditView, ProductManage, FinanceManage} ::
              code in Defaults(role) <==> role == Admin
    ensures SystemManage !in Defaults(role)
  {
  }

  function Rank(role: Role): nat {
    if role.ItSupport? then 100 else if role.Admin? then 50 else 10
  }

  datatype User = User(role: Role, active: bool, isStaff: bool)

  /** Rows are kept in the order of their ids. */
  datatype Override = Override(user: nat, code: Code, allow: bool, expiresAt: Option<int>, updatedAt: int, deleted: bool)

  datatype Tables = Tables(users: map<nat, User>, overrides: seq<Override>)

  predicate Current(row: Override, user: nat, now: int) {
    row.user == user && !row.deleted && (row.expiresAt.None? || row.expiresAt.value > now)
  }

  predicate Decides(rows: seq<Override>, i: int, user: nat, code: Code, now: int) {
    0 <= i < |rows| && rows[i].code == code && Current(rows[i], user, now)
  }

  /** The current override of the code that was updated last. */
  function Newest(rows: seq<Override>, user: nat, code: Code, now: int): (found: Option<nat>)
    ensures found.Some? ==> Decides(rows, found.value, user, code, now)
    ensures forall i :: Decides(rows, i, user, code, now) ==>
              found.Some? && rows[i].updatedAt <= rows[found.value].updatedAt
  {
    if rows == [] then None
    else
      var last := |rows| - 1;
      var earlier := Newest(rows[..last], user, code, now);
      assert forall i :: i < last ==> (Decides(rows[..last], i, user, code, now) <==> Decides(rows, i, user, code, now));
      if Decides(rows, last, user, code, now)
         && (earlier.None? || rows[earlier.value].updatedAt < rows[last].updatedAt) then Some(last)
      else earlier
  }

  function Has(db: Tables, user: nat, code: Code, now: int): bool {
    if user !in db.users || !db.users[user].active then false
    else
      var found := Newest(db.overrides, user, code, now);
      if found.Some? then db.overrides[found.value].allow
      else Wildcard in Defaults(db.users[user].role) || code in Defaults(db.users[user].role)
  }

  /** The row is about this user and code and neither deleted nor past its expiry. */
  predicate Governs(row: Override, user: nat, code: Code, now: int) {
    row.user == user && row.code == code && !row.deleted && (row.expiresAt.None? || now < row.expiresAt.value)
  }

  /** An active user holds a capability exactly when the last updated override that governs it allows it or, if none governs
      it, when the role holds it or is IT Support. */
  lemma HasFollowsTheLastOverride(db: Tables, user: nat, code: Code, now: int)
    requires NoTies(db.overrides)
    ensures Has(db, user, code, now) <==>
              && user in db.users && db.users[user].active
              && if exists row <- db.overrides :: Governs(row, user, code, now) then
                   exists row <- db.overrides :: Governs(row, user, code, now) && row.allow
                     && forall other <- db.overrides :: Governs(other, user, code, now) ==> other.updatedAt <= row.updatedAt
                 else db.users[user].role.ItSupport? || code in Defaults(db.users[user].role)
  {
    var rows, found := db.overrides, Newest(db.overrides, user, code, now);
    forall i | 0 <= i < |rows| ensures Governs(rows[i], user, code, now) <==> Decides(rows, i, user, code, now) {
    }
    forall row | row in rows && Governs(row, user, code, now)
      ensures exists i :: Decides(rows, i, user, code, now) && rows[i] == row
    {
      var i :| 0 <= i < |rows| && rows[i] == row;
      assert Decides(rows, i, user, code, now);
    }
    if found.Some? {
      var newest := rows[found.value];
      assert newest in rows && Governs(newest, user, code, now);
      forall row | row in rows && Governs(row, user, code, now) && row.updatedAt >= newest.updatedAt
        ensures row == newest
      {
        var i :| Decides(rows, i, user, code, now) && rows[i] == row;
      }
    }
  }

  // ---- the batched question ----

  predicate Ascends(rows: seq<Override>) {
    forall i, j :: 0 <= i <= j < |rows| ==> rows[i].updatedAt <= rows[j].updatedAt
  }

  /** The row put after every row updated no later. */
  function Insert(sorted: seq<Override>, row: Override): (r: seq<Override>)
    requires Ascends(sorted)
    ensures Ascends(r) && forall other :: other in r <==> other in sorted || other == row
  {
    if sorted == [] || sorted[|sorted| - 1].updatedAt <= row.updatedAt then sorted + [row]
    else
      var last := sorted[|sorted| - 1];
      assert sorted == sorted[..|sorted| - 1] + [last];
      var r := Insert(sorted[..|sorted| - 1], row);
      assert forall i :: 0 <= i < |r| ==> r[i] in sorted[..|sorted| - 1] || r[i] == row;
      r + [last]
  }

  /** The user's current overrides of the codes, as the database returns them: by update time, then by id. */
  function Overrides(rows: seq<Override>, user: nat, codes: seq<Code>, now: int): (r: seq<Override>)
    ensures Ascends(r)
    ensures forall row: Override :: row in r <==> row in rows && Current(row, user, now) && row.code in codes
  {
    if rows == [] then []
    else
      var last := rows[|rows| - 1];
      var earlier := Overrides(rows[..|rows| - 1], user, codes, now);
      assert rows == rows[..|rows| - 1] + [last];
      if Current(last, user, now) && last.code in codes then
        var r := Insert(earlier, last);
        assert forall row: Override :: row in r <==> row in earlier + [last];
        r
      else earlier
  }

  /** No two overrides of one user and code carry the same update time. The unique (user, code) constraint gives more:
      there is only one. */
  predicate NoTies(rows: seq<Override>) {
    forall i, j :: 0 <= i < j < |rows| && rows[i].user == rows[j].user && rows[i].code == rows[j].code ==>
      rows[i].updatedAt != rows[j].updatedAt
  }

  predicate Unique(rows: seq<Override>) {
    forall i, j :: 0 <= i < j < |rows| ==> rows[i].user != rows[j].user || rows[i].code != rows[j].code
  }

  /** Row j is the last of the code among the first n. */
  predicate IsLastOf(rows: seq<Override>, n: int, code: Code, j: int) {
    0 <= j < n <= |rows| && rows[j].code == code && forall k :: j < k < n ==> rows[k].code != code
  }

  /** The last override of the code in update order is the one `has` decides by. */
  lemma LastInOrderDecides(rows: seq<Override>, user: nat, codes: seq<Code>, now: int, code: Code, j: int)
    requires NoTies(rows)
    requires var ordered := Overrides(rows, user, codes, now); IsLastOf(ordered, |ordered|, code, j)
    ensures var found := Newest(rows, user, code, now);
            found.Some? && rows[found.value] == Overrides(rows, user, codes, now)[j]
  {
    var row := Overrides(rows, user, codes, now)[j];
    assert row in rows;
    var i :| 0 <= i < |rows| && rows[i] == row;
    assert Decides(rows, i, user, code, now);
    var found := Newest(rows, user, code, now).value;
    NotAfterTheLast(rows, user, codes, now, code, j, rows[found]);
    assert rows[i].updatedAt == rows[found].updatedAt;
  }

  lemma {:induction false} NotAfterTheLast(rows: seq<Override>, user: nat, codes: seq<Code>, now: int, code: Code,
                                           j: int, row: Override)
    requires var ordered := Overrides(rows, user, codes, now); IsLastOf(ordered, |ordered|, code, j)
    requires row in rows && row.code == code && Current(row, user, now)
    ensures row.updatedAt <= Overrides(rows, user, codes, now)[j].updatedAt
  {
    var ordered := Overrides(rows, user, codes, now);
    assert ordered[j].code in codes && row in ordered;
    var k :| 0 <= k < |ordered| && ordered[k] == row;
    assert k <= j;
  }

  lemma TheDecidingRowIsListed(rows: seq<Override>, user: nat, codes: seq<Code>, now: int, code: Code)
    requires code in codes && Newest(rows, user, code, now).Some?
    ensures exists j :: 0 <= j < |Overrides(rows, user, codes, now)| && Overrides(rows, user, codes, now)[j].code == code
  {
    assert rows[Newest(rows, user, code, now).value] in Overrides(rows, user, codes, now);
  }

  /** The dictionary holds, for each code among the first n rows, the effect of the last of them. */
  ghost predicate Summarises(latest: map<Code, bool>, rows: seq<Override>, n: nat)
    requires n <= |rows|
  {
    && (forall code :: code !in latest ==> forall j :: 0 <= j < n ==> rows[j].code != code)
    && (forall code <- latest :: exists j :: IsLastOf(rows, n, code, j) && latest[code] == rows[j].allow)
  }

  lemma SummaryGrows(latest: map<Code, bool>, rows: seq<Override>, n: nat)
    requires n < |rows| && Summarises(latest, rows, n)
    ensures Summarises(latest[rows[n].code := rows[n].allow], rows, n + 1)
  {
  }

  function Answer(latest: map<Code, bool>, role: Role, code: Code): bool {
    if code in latest then latest[code] else Wildcard in Defaults(role) || code in Defaults(role)
  }

  lemma SummaryAnswers(db: Tables, user: nat, codes: seq<Code>, now: int, latest: map<Code, bool>, code: Code)
    requires NoTies(db.overrides) && user in db.users && db.users[user].active && code in codes
    requires var rows := Overrides(db.overrides, user, codes, now); Summarises(latest, rows, |rows|)
    ensures Has(db, user, code, now) == Answer(latest, db.users[user].role, code)
  {
    var rows := Overrides(db.overrides, user, codes, now);
    if code in latest {
      var j :| IsLastOf(rows, |rows|, code, j) && latest[code] == rows[j].allow;
      LastInOrderDecides(db.overrides, user, codes, now, code, j);
    } else if Newest(db.overrides, user, code, now).Some? {
      TheDecidingRowIsListed(db.overrides, user, codes, now, code);
    }
  }

  // ---- templates ----

  datatype Template = Template(role: Role, capabilities: set<Code>)

  /** The overrides of `user` are exactly one unlimited ALLOW per code the template adds to the role and one unlimited
      DENY per code it takes away (none at all for the wildcard role); nothing else about anyone changed. */
  ghost predicate Applied(before: Tables, after: Tables, user: nat, template: Template) {
    && user in before.users
    && after.users == before.users[user := before.users[user].(role := template.role, isStaff := false)]
    && (forall row: Override :: row.user != user ==> (row in after.overrides <==> row in before.overrides))
    && (forall row: Override :: row in after.overrides && row.user == user ==>
          !row.deleted && row.expiresAt.None? && Wildcard !in Defaults(template.role)
          && (row.allow <==> row.code in template.capabilities) && (row.allow <==> row.code !in Defaults(template.role)))
    && (Wildcard !in Defaults(template.role) ==>
          forall code :: (code in template.capabilities <==> code !in Defaults(template.role)) ==>
            exists row :: row in after.overrides && row.user == user && row.code == code)
  }

  lemma AppliedDecides(before: Tables, after: Tables, user: nat, template: Template, code: Code, now: int)
    requires Applied(before, after, user, template) && before.users[user].active
    ensures Has(after, user, code, now) <==> Wildcard in Defaults(template.role) || code in template.capabilities
  {
  }

  lemma SomeCodeIsMissing(codes: set<Code>) returns (n: nat)
    ensures forall text: nat :: text >= n ==> Other(text) !in codes
  {
    if codes == {} {
      n := 0;
    } else {
      var code :| code in codes;
      n := SomeCodeIsMissing(codes - {code});
      if code.Other? && code.text >= n {
        n := code.text + 1;
      }
    }
  }

  ghost predicate HoldsExactly(db: Tables, user: nat, codes: set<Code>, now: int) {
    forall code :: Has(db, user, code, now) <==> code in codes
  }

  /** Applying a template to an active user makes their capabilities exactly the template's, at that moment and ever
      after, just when the role is not the wildcard one, which holds everything. */
  lemma TemplateIsExactIffNotWildcard(before: Tables, after: Tables, user: nat, template: Template, now: int)
    requires Applied(before, after, user, template) && before.users[user].active
    ensures HoldsExactly(after, user, template.capabilities, now) <==> !template.role.ItSupport?
    ensures template.role.ItSupport? ==> forall code :: Has(after, user, code, now)
  {
    forall code
      ensures Has(after, user, code, now) <==> Wildcard in Defaults(template.role) || code in template.capabilities
    {
      AppliedDecides(before, after, user, template, code, now);
    }
    if template.role.ItSupport? {
      var n := SomeCodeIsMissing(template.capabilities);
      assert Other(n) !in template.capabilities;
    }
  }

  lemma SameDecisions(before: seq<Override>, after: seq<Override>, user: nat, code: Code, now: int)
    requires NoTies(before) && NoTies(after)
    requires forall row: Override :: row.user == user ==> (row in after <==> row in before)
    ensures var b, a := Newest(before, user, code, now), Newest(after, user, code, now);
            && (b.Some? <==> a.Some?) && (b.Some? ==> before[b.value] == after[a.value])
  {
  }

  /** Nobody else's capabilities move. */
  lemma ApplyLeavesOthersAlone(before: Tables, after: Tables, user: nat, template: Template, other: nat, code: Code,
                               now: int)
    requires Applied(before, after, user, template) && other != user
    requires NoTies(before.overrides) && NoTies(after.overrides)
    ensures Has(after, other, code, now) == Has(before, other, code, now)
  {
    SameDecisions(before.overrides, after.overrides, other, code, now);
  }

  // ---- who may hand out what ----

  predicate MayDelegate(db: Tables, actor: nat, code: Code, now: int)
    requires actor in db.users
  {
    db.users[actor].role.ItSupport? || (code != SystemManage && Has(db, actor, code, now))
  }

  predicate MayUse(db: Tables, actor: nat, template: Template, now: int)
    requires actor in db.users
  {
    && (db.users[actor].role.ItSupport? || Rank(template.role) < Rank(db.users[actor].role))
    && forall code <- template.capabilities :: MayDelegate(db, actor, code, now)
  }

  /** Only IT Support and administrators create accounts; an administrator only accounts below their own rank, and only with
      capabilities they hold themselves, system.manage never among them. */
  lemma WhoMayHire(db: Tables, actor: nat, template: Template, now: int)
    requires actor in db.users
    ensures MayUse(db, actor, template, now) <==>
              || db.users[actor].role == ItSupport
              || (&& db.users[actor].role == Admin && template.role !in {ItSupport, Admin}
                  && SystemManage !in template.capabilities
                  && forall code <- template.capabilities :: Has(db, actor, code, now))
  {
  }

  /** One account created from a template: the actor is vetted, a new active account appears, the template is applied. */
  datatype Hire = Hire(actor: nat, user: nat, template: Template, at: int)

  ghost predicate Hires(before: Tables, hire: Hire, after: Tables) {
    && hire.actor in before.users && MayUse(before, hire.actor, hire.template, hire.at)
    && hire.user !in before.users
    && NoTies(before.overrides) && NoTies(after.overrides)
    && exists role, staff ::
         Applied(before.(users := before.users[hire.user := User(role, true, staff)]), after, hire.user, hire.template)
  }

  lemma {:induction false} HireSpreadsNothing(before: Tables, hire: Hire, after: Tables, user: nat, code: Code,
                                              now: int)
    requires Hires(before, hire, after) && !before.users[hire.actor].role.ItSupport?
    ensures Has(after, user, code, now) ==>
              if user == hire.user then code != SystemManage && Has(before, hire.actor, code, hire.at)
              else Has(before, user, code, now)
    ensures hire.user in after.users && Rank(after.users[hire.user].role) < Rank(before.users[hire.actor].role)
    ensures forall u <- before.users :: u in after.users && after.users[u] == before.users[u]
  {
    var role, staff :| Applied(before.(users := before.users[hire.user := User(role, true, staff)]), after, hire.user,
                               hire.template);
    var created := before.(users := before.users[hire.user := User(role, true, staff)]);
    if user == hire.user {
      AppliedDecides(created, after, hire.user, hire.template, code, now);
    } else {
      ApplyLeavesOthersAlone(created, after, hire.user, hire.template, user, code, now);
    }
  }

  /** A run of account creations, none of them by IT Support. */
  ghost predicate Staffing(states: seq<Tables>, hires: seq<Hire>) {
    && |states| == |hires| + 1
    && forall k :: 0 <= k < |hires| ==>
         Hires(states[k], hires[k], states[k + 1]) && !states[k].users[hires[k].actor].role.ItSupport?
  }

  ghost predicate HeldAtFirst(db: Tables, code: Code) {
    exists user, now :: Has(db, user, code, now)
  }

  /** However many accounts non-IT staff create, by whatever chain of delegation, no capability appears that nobody had
      at the start, and nobody who did not hold system.manage ever does. */
  lemma {:induction false} DelegationNeverEscalates(states: seq<Tables>, hires: seq<Hire>, user: nat, code: Code,
                                                    now: int)
    requires Staffing(states, hires) && Has(states[|hires|], user, code, now)
    ensures HeldAtFirst(states[0], code)
    ensures code == SystemManage ==> Has(states[0], user, code, now)
    decreases |hires|
  {
    if hires != [] {
      var n := |hires| - 1;
      HireSpreadsNothing(states[n], hires[n], states[n + 1], user, code, now);
      assert Staffing(states[..n + 1], hires[..n]);
      if user == hires[n].user {
        DelegationNeverEscalates(states[..n + 1], hires[..n], hires[n].actor, code, hires[n].at);
      } else {
        DelegationNeverEscalates(states[..n + 1], hires[..n], user, code, now);
      }
    }
  }

  // ---- the services over their tables ----

  class PermissionStore {
    var users: map<nat, User>
    var overrides: seq<Override>

    ghost function View(): Tables
      reads this
    {
      Tables(users, overrides)
    }

    constructor (users: map<nat, User>, overrides: seq<Override>)
      ensures View() == Tables(users, overrides)
    {
      this.users, this.overrides := users, overrides;
    }

    /** One query for all the codes, the later update winning, agrees with asking for each code. */
    method GrantedAmong(user: nat, codes: seq<Code>, now: int) returns (granted: set<Code>)
      requires NoTies(overrides)
      ensures granted == set code | code in codes && Has(View(), user, code, now)
    {
      if user !in users || !users[user].active || codes == [] {
        return {};
      }
      var latest: map<Code, bool> := map[];
      var ordered := Overrides(overrides, user, codes, now);
      for i := 0 to |ordered|
        invariant Summarises(latest, ordered, i)
      {
        SummaryGrows(latest, ordered, i);
        latest := latest[ordered[i].code := ordered[i].allow];
      }
      var role := users[user].role;
      granted := set code | code in codes && Answer(latest, role, code);
      forall code | code in codes ensures Has(View(), user, code, now) == Answer(latest, role, code) {
        SummaryAnswers(View(), user, codes, now, latest, code);
      }
    }

    /** Deletes the user's overrides, then creates the ones that turn the role's defaults into the template's. */
    method ApplyTemplate(user: nat, template: Template, now: int)
      requires user in users && Unique(overrides)
      modifies this
      ensures Applied(old(View()), View(), user, template) && Unique(overrides)
    {
      users := users[user := users[user].(role := template.role, isStaff := false)];
      overrides := Without(overrides, user);
      var base := Defaults(template.role);
      if Wildcard in base {
        return;
      }
      Create(user, template.capabilities - base, true, now);
      Create(user, base - template.capabilities, false, now);
      forall code | code in template.capabilities <==> code !in base
        ensures exists row :: row in overrides && row.user == user && row.code == code
      {
        assert Override(user, code, code in template.capabilities, None, now, false) in overrides;
      }
    }

    method Create(user: nat, codes: set<Code>, allow: bool, now: int)
      requires Unique(overrides)
      requires forall i :: 0 <= i < |overrides| && overrides[i].user == user ==> overrides[i].code !in codes
      modifies this`overrides
      ensures Unique(overrides)
      ensures forall row: Override :: row in overrides <==>
                row in old(overrides) || (row.code in codes && row == Override(user, row.code, allow, None, now, false))
    {
      var rest := codes;
      while rest != {}
        invariant rest <= codes && Unique(overrides)
        invariant forall row: Override :: row in overrides <==>
                    row in old(overrides)
                    || (row.code in codes - rest && row == Override(user, row.code, allow, None, now, false))
        invariant forall i :: 0 <= i < |overrides| && overrides[i].user == user ==> overrides[i].code !in rest
        decreases rest
      {
        var code :| code in rest;
        overrides := overrides + [Override(user, code, allow, None, now, false)];
        rest := rest - {code};
      }
    }
  }

  function Without(rows: seq<Override>, user: nat): (r: seq<Override>)
    ensures forall row: Override :: row in r <==> row in rows && row.user != user
    ensures Unique(rows) ==> Unique(r)
  {
    if rows == [] then []
    else
      var earlier := Without(rows[..|rows| - 1], user);
      assert rows == rows[..|rows| - 1] + [rows[|rows| - 1]];
      if rows[|rows| - 1].user == user then earlier else earlier + [rows[|rows| - 1]]
  }
}
